/** Member lookup in a struct (`findMemberInBTFStruct`).

    The search walks the members in declaration order and, for each member in
    turn, tries three things before moving on: the member's own name; if the
    member is nameless and its type is directly a struct, that struct's members;
    if the member's type is directly a union (named or not), the union's members.
    The first hit wins. A member found one level down is returned as declared
    there, so its offset is relative to the anonymous struct or union, not to the
    searched struct. */
module BtfMembers {
  import opened Wrappers
  import opened BtfTypes

  /** The members of `ms` called `name`, in order. */
  function Named(ms: seq<Member>, name: string): (r: seq<Member>)
    ensures forall k :: 0 <= k < |r| ==> r[k] in ms && r[k].name == name
    ensures forall m :: m in ms && m.name == name ==> m in r
  {
    if ms == [] then []
    else (if ms[0].name == name then [ms[0]] else []) + Named(ms[1..], name)
  }

  /** The members of the anonymous struct or union held by `m`, when the search
      looks inside it: a nameless struct member, or any union member. */
  function Nested(g: Graph, m: Member): seq<Member>
    requires m.ty < |g|
  {
    if g[m.ty].Struct? && |m.name| == 0 then g[m.ty].members
    else if g[m.ty].Union? then g[m.ty].members
    else []
  }

  /** Everything a search for `name` can return while it is at member `m`, in the
      order it tries them. */
  function Candidates(g: Graph, m: Member, name: string): seq<Member>
    requires m.ty < |g|
  {
    (if m.name == name then [m] else []) + Named(Nested(g, m), name)
  }

  /** All hits of a search for `name` over `ms`, in the order the scan meets them;
      the lookup answers the first. */
  function Hits(g: Graph, ms: seq<Member>, name: string): seq<Member>
    requires MembersIn(ms, |g|)
  {
    if ms == [] then []
    else Candidates(g, ms[0], name) + Hits(g, ms[1..], name)
  }

  /** The first member of `ms` called `name` (the inner `for` loops). */
  function FirstNamed(ms: seq<Member>, name: string): (r: Option<Member>)
    ensures r.None? <==> Named(ms, name) == []
    ensures r.Some? ==> r.value == Named(ms, name)[0]
  {
    if ms == [] then None
    else if ms[0].name == name then Some(ms[0])
    else FirstNamed(ms[1..], name)
  }

  /** `findMemberInBTFStruct` over the member list of a struct. */
  function FindMember(g: Graph, ms: seq<Member>, name: string): (r: Result<Member, BtfError>)
    requires MembersIn(ms, |g|)
    ensures r.Success? <==> Hits(g, ms, name) != []
    ensures r.Success? ==> r.value == Hits(g, ms, name)[0]
    ensures r.Failure? ==> r.error == MemberNotFound(name)
  {
    if ms == [] then Failure(MemberNotFound(name))
    else
      var m := ms[0];
      assert Hits(g, ms, name) == Candidates(g, m, name) + Hits(g, ms[1..], name);
      if m.name == name then Success(m)
      else
        var anonymous := if g[m.ty].Struct? && |m.name| == 0 then FirstNamed(g[m.ty].members, name) else None;
        if anonymous.Some? then
          assert Candidates(g, m, name) == Named(g[m.ty].members, name);
          Success(anonymous.value)
        else
          var union := if g[m.ty].Union? then FirstNamed(g[m.ty].members, name) else None;
          if union.Some? then
            assert Candidates(g, m, name) == Named(g[m.ty].members, name);
            Success(union.value)
          else
            assert Candidates(g, m, name) == [];
            FindMember(g, ms[1..], name)
  }

  /** Every hit carries the searched name and is either a direct member or a
      member of an anonymous struct or union member; and every such member is a hit. */
  lemma {:induction false} HitsAreExactlyTheReachableNames(g: Graph, ms: seq<Member>, name: string, m: Member)
    requires MembersIn(ms, |g|)
    ensures m in Hits(g, ms, name) <==>
              m.name == name &&
              (m in ms || exists i :: 0 <= i < |ms| && m in Nested(g, ms[i]))
  {
    if ms != [] {
      HitsAreExactlyTheReachableNames(g, ms[1..], name, m);
      var rest := ms[1..];
      if m.name == name && (m in ms || exists i :: 0 <= i < |ms| && m in Nested(g, ms[i])) {
        if m == ms[0] || m in Nested(g, ms[0]) {
          assert m in Candidates(g, ms[0], name);
        } else if m in ms {
          assert m in rest;
        } else {
          var i :| 0 <= i < |ms| && m in Nested(g, ms[i]);
          assert i != 0;
          assert rest[i - 1] == ms[i];
        }
      }
      if m in Hits(g, ms, name) && m !in Candidates(g, ms[0], name) {
        assert m in Hits(g, rest, name);
        if m !in rest {
          var i :| 0 <= i < |rest| && m in Nested(g, rest[i]);
          assert ms[i + 1] == rest[i];
        }
      }
    }
  }

  /** The hits of a split member list are the hits of its parts, in order. */
  lemma {:induction false} HitsAppend(g: Graph, a: seq<Member>, b: seq<Member>, name: string)
    requires MembersIn(a, |g|) && MembersIn(b, |g|)
    ensures MembersIn(a + b, |g|)
    ensures Hits(g, a + b, name) == Hits(g, a, name) + Hits(g, b, name)
  {
    if a != [] {
      assert (a + b)[1..] == a[1..] + b;
      HitsAppend(g, a[1..], b, name);
    } else {
      assert a + b == b;
    }
  }

  /** First hit wins: if member `j` is the first member offering any candidate,
      the lookup returns that member's first candidate, whatever later members hold. */
  lemma FirstProvidingMemberWins(g: Graph, ms: seq<Member>, name: string, j: nat)
    requires MembersIn(ms, |g|)
    requires j < |ms| && Candidates(g, ms[j], name) != []
    requires forall i :: 0 <= i < j ==> Candidates(g, ms[i], name) == []
    ensures FindMember(g, ms, name) == Success(Candidates(g, ms[j], name)[0])
  {
    var before, rest := ms[..j], ms[j..];
    assert ms == before + rest;
    assert forall i :: 0 <= i < |before| ==> before[i] == ms[i];
    NoHitsIffNothingOffered(g, before, name);
    HitsAppend(g, before, rest, name);
    assert rest[0] == ms[j];
    assert Hits(g, rest, name) == Candidates(g, ms[j], name) + Hits(g, rest[1..], name);
  }

  /** No hits exactly when no member offers a candidate. */
  lemma {:induction false} NoHitsIffNothingOffered(g: Graph, ms: seq<Member>, name: string)
    requires MembersIn(ms, |g|)
    ensures Hits(g, ms, name) == [] <==>
              forall i :: 0 <= i < |ms| ==> Candidates(g, ms[i], name) == []
  {
    if ms != [] {
      NoHitsIffNothingOffered(g, ms[1..], name);
      assert forall i :: 0 <= i < |ms| - 1 ==> ms[1..][i] == ms[i + 1];
      if Hits(g, ms, name) == [] {
        assert Candidates(g, ms[0], name) == [];
      }
    }
  }

  /** The lookup fails exactly when no member, at any of the three levels, offers
      a candidate. */
  lemma LookupFailsIffNothingOffered(g: Graph, ms: seq<Member>, name: string)
    requires MembersIn(ms, |g|)
    ensures FindMember(g, ms, name).Failure? <==>
              forall i :: 0 <= i < |ms| ==> Candidates(g, ms[i], name) == []
  {
    NoHitsIffNothingOffered(g, ms, name);
  }

  /** A member reached through a nameless struct member is returned with its own
      offset inside that struct: the enclosing member's offset is not added. */
  lemma NestedHitKeepsInnerOffset(g: Graph, ms: seq<Member>, name: string, j: nat, inner: Member)
    requires MembersIn(ms, |g|)
    requires j < |ms| && ms[j].name == "" && name != ""
    requires g[ms[j].ty].Struct? && FirstNamed(g[ms[j].ty].members, name) == Some(inner)
    requires forall i :: 0 <= i < j ==> Candidates(g, ms[i], name) == []
    ensures FindMember(g, ms, name) == Success(inner)
    ensures ByteOffset(FindMember(g, ms, name).value) == inner.bitOffset / 8
  {
    var m := ms[j];
    assert Candidates(g, m, name) == Named(g[m.ty].members, name) by {
      assert m.name != name && |m.name| == 0;
    }
    assert Candidates(g, m, name)[0] == inner;
    FirstProvidingMemberWins(g, ms, name, j);
  }
}

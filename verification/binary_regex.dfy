/** The binary-regex event filters (`filterByBinaryRegex` and the three
    `OnBuildFilter` builders).

    A filter is built from a list of patterns and a level. It compiles every
    pattern up front, and then, for each event, picks the processes the level
    designates (the process, the parent, or the ancestor list) and accepts the
    event when some pattern matches some picked process's binary.

    The regular-expression engine is not modelled: whether a pattern compiles,
    and whether a compiled pattern matches a string, are parameters. The event
    accessors are not modelled either: an event is represented by what they
    report for it. */
module BinaryRegex {
  import opened Wrappers

  /** The one field of a process the filters read. */
  datatype Process = Process(binary: string)

  /** An event as the accessors report it: the process and the parent (absent
      when the accessor returns nil), and the ancestor list. */
  datatype Event = Event(process: Option<Process>, parent: Option<Process>, ancestors: seq<Process>)

  /** What the accessors report for a nil event, or one that carries no process
      information: nothing. */
  const NilEvent: Event := Event(None, None, [])

  /** Which processes of an event a filter inspects. */
  datatype Level = ProcessBinary | ParentBinary | AncestorBinary

  /** A built filter: the compiled patterns, in order, and the level. A compiled
      pattern is represented by its source text. */
  datatype BinaryFilter = BinaryFilter(patterns: seq<string>, level: Level)

  datatype FilterError =
    | CompileFailed(pattern: string)
    | AncestorsNotEnabled(reason: string)

  /** The processes a level picks out of an event. The process and parent levels
      pick a one-element list whose element may be nil; the ancestor level picks
      the ancestor list. */
  function Selected(ev: Event, level: Level): (r: seq<Option<Process>>)
    ensures level != AncestorBinary ==> |r| == 1
    ensures level == AncestorBinary ==> |r| == |ev.ancestors|
    ensures level == ProcessBinary ==> r[0] == ev.process
    ensures level == ParentBinary ==> r[0] == ev.parent
    ensures level == AncestorBinary ==> forall i :: 0 <= i < |r| ==> r[i] == Some(ev.ancestors[i])
  {
    match level
    case ProcessBinary => [ev.process]
    case ParentBinary => [ev.parent]
    case AncestorBinary => seq(|ev.ancestors|, i requires 0 <= i < |ev.ancestors| => Some(ev.ancestors[i]))
  }

  /** The acceptance condition, stated independently of the scan order: the
      selection is non-empty, its first entry is present, and some present
      process's binary is matched by some pattern. */
  predicate Accepts(f: BinaryFilter, ev: Event, matches: (string, string) -> bool) {
    var procs := Selected(ev, f.level);
    && |procs| > 0
    && procs[0].Some?
    && exists i, j :: 0 <= i < |procs| && 0 <= j < |f.patterns| &&
         procs[i].Some? && matches(f.patterns[j], procs[i].value.binary)
  }

  /** Whether every pattern compiles. */
  predicate AllCompile(patterns: seq<string>, compiles: string -> bool) {
    forall j :: 0 <= j < |patterns| ==> compiles(patterns[j])
  }

  /** `j` is the first pattern that does not compile. */
  predicate FirstUncompiled(patterns: seq<string>, compiles: string -> bool, j: int) {
    && 0 <= j < |patterns|
    && !compiles(patterns[j])
    && forall k :: 0 <= k < j ==> compiles(patterns[k])
  }

  /** `filterByBinaryRegex`: compile the patterns in order, stopping at the first
      that does not compile; the filter keeps the patterns in their order. */
  method FilterByBinaryRegex(patterns: seq<string>, level: Level, compiles: string -> bool)
    returns (r: Result<BinaryFilter, FilterError>)
    ensures r.Success? <==> AllCompile(patterns, compiles)
    ensures r.Success? ==> r.value == BinaryFilter(patterns, level)
    ensures r.Failure? ==> exists j :: FirstUncompiled(patterns, compiles, j) && r.error == CompileFailed(patterns[j])
  {
    var binaries: seq<string> := [];
    var n := 0;
    while n < |patterns|
      invariant 0 <= n <= |patterns|
      invariant binaries == patterns[..n]
      invariant forall k :: 0 <= k < n ==> compiles(patterns[k])
    {
      if !compiles(patterns[n]) {
        assert FirstUncompiled(patterns, compiles, n);
        return Failure(CompileFailed(patterns[n]));
      }
      binaries := binaries + [patterns[n]];
      n := n + 1;
    }
    assert binaries == patterns;
    return Success(BinaryFilter(binaries, level));
  }

  /** The filter function: false on an empty selection or a nil first entry;
      otherwise scan the processes, and for each the patterns, and accept on the
      first match. */
  method Eval(f: BinaryFilter, ev: Event, matches: (string, string) -> bool) returns (accepted: bool)
    ensures accepted <==> Accepts(f, ev, matches)
  {
    var processes := Selected(ev, f.level);
    if |processes| == 0 || processes[0].None? {
      return false;
    }
    var i := 0;
    while i < |processes|
      invariant 0 <= i <= |processes|
      invariant forall a, b :: 0 <= a < i && 0 <= b < |f.patterns| && processes[a].Some? ==>
                  !matches(f.patterns[b], processes[a].value.binary)
    {
      var process := processes[i];
      if process.Some? {
        var j := 0;
        while j < |f.patterns|
          invariant 0 <= j <= |f.patterns|
          invariant forall b :: 0 <= b < j ==> !matches(f.patterns[b], process.value.binary)
        {
          if matches(f.patterns[j], process.value.binary) {
            return true;
          }
          j := j + 1;
        }
      }
      i := i + 1;
    }
    return false;
  }

  /** The filter section of a request, as far as these builders read it. An
      absent pattern list is a nil slice; a present one may be empty. Event
      types are their enum numbers. */
  datatype Filter = Filter(
    binaryRegex: Option<seq<string>>,
    parentBinaryRegex: Option<seq<string>>,
    ancestorBinaryRegex: Option<seq<string>>,
    eventSet: seq<nat>)

  /** Shared shape of the builders: no patterns, no filter; otherwise the one
      filter `filterByBinaryRegex` builds, or its error. */
  method BuildAtLevel(patterns: Option<seq<string>>, level: Level, compiles: string -> bool)
    returns (r: Result<seq<BinaryFilter>, FilterError>)
    ensures patterns.None? ==> r == Success([])
    ensures patterns.Some? && AllCompile(patterns.value, compiles) ==>
              r == Success([BinaryFilter(patterns.value, level)])
    ensures patterns.Some? && !AllCompile(patterns.value, compiles) ==>
              exists j :: FirstUncompiled(patterns.value, compiles, j) &&
                r == Failure(CompileFailed(patterns.value[j]))
  {
    if patterns.None? {
      return Success([]);
    }
    var built := FilterByBinaryRegex(patterns.value, level, compiles);
    if built.Failure? {
      return Failure(built.error);
    }
    return Success([built.value]);
  }

  /** `BinaryRegexFilter.OnBuildFilter`. */
  method OnBuildBinaryFilter(ff: Filter, compiles: string -> bool)
    returns (r: Result<seq<BinaryFilter>, FilterError>)
    ensures ff.binaryRegex.None? ==> r == Success([])
    ensures ff.binaryRegex.Some? && AllCompile(ff.binaryRegex.value, compiles) ==>
              r == Success([BinaryFilter(ff.binaryRegex.value, ProcessBinary)])
    ensures ff.binaryRegex.Some? && !AllCompile(ff.binaryRegex.value, compiles) ==>
              exists j :: FirstUncompiled(ff.binaryRegex.value, compiles, j) &&
                r == Failure(CompileFailed(ff.binaryRegex.value[j]))
  {
    r := BuildAtLevel(ff.binaryRegex, ProcessBinary, compiles);
  }

  /** `ParentBinaryRegexFilter.OnBuildFilter`. */
  method OnBuildParentFilter(ff: Filter, compiles: string -> bool)
    returns (r: Result<seq<BinaryFilter>, FilterError>)
    ensures ff.parentBinaryRegex.None? ==> r == Success([])
    ensures ff.parentBinaryRegex.Some? && AllCompile(ff.parentBinaryRegex.value, compiles) ==>
              r == Success([BinaryFilter(ff.parentBinaryRegex.value, ParentBinary)])
    ensures ff.parentBinaryRegex.Some? && !AllCompile(ff.parentBinaryRegex.value, compiles) ==>
              exists j :: FirstUncompiled(ff.parentBinaryRegex.value, compiles, j) &&
                r == Failure(CompileFailed(ff.parentBinaryRegex.value[j]))
  {
    r := BuildAtLevel(ff.parentBinaryRegex, ParentBinary, compiles);
  }

  /** `AncestorBinaryRegexFilter.OnBuildFilter`: with patterns present, the
      event-set check runs first and its error wins over any compile error. The
      check itself (`CheckAncestorsEnabled`) is a parameter: it returns the
      reason the ancestors are unavailable, if they are. */
  method OnBuildAncestorFilter(ff: Filter, checkAncestors: seq<nat> -> Option<string>, compiles: string -> bool)
    returns (r: Result<seq<BinaryFilter>, FilterError>)
    ensures ff.ancestorBinaryRegex.None? ==> r == Success([])
    ensures ff.ancestorBinaryRegex.Some? && checkAncestors(ff.eventSet).Some? ==>
              r == Failure(AncestorsNotEnabled(checkAncestors(ff.eventSet).value))
    ensures ff.ancestorBinaryRegex.Some? && checkAncestors(ff.eventSet).None? &&
            AllCompile(ff.ancestorBinaryRegex.value, compiles) ==>
              r == Success([BinaryFilter(ff.ancestorBinaryRegex.value, AncestorBinary)])
    ensures ff.ancestorBinaryRegex.Some? && checkAncestors(ff.eventSet).None? &&
            !AllCompile(ff.ancestorBinaryRegex.value, compiles) ==>
              exists j :: FirstUncompiled(ff.ancestorBinaryRegex.value, compiles, j) &&
                r == Failure(CompileFailed(ff.ancestorBinaryRegex.value[j]))
  {
    if ff.ancestorBinaryRegex.Some? {
      var reason := checkAncestors(ff.eventSet);
      if reason.Some? {
        return Failure(AncestorsNotEnabled(reason.value));
      }
    }
    r := BuildAtLevel(ff.ancestorBinaryRegex, AncestorBinary, compiles);
  }

  /** Only the set of patterns matters, not their order or repetitions. */
  lemma PatternOrderIrrelevant(p1: seq<string>, p2: seq<string>, level: Level, ev: Event,
                               matches: (string, string) -> bool)
    requires forall x :: x in p1 <==> x in p2
    ensures Accepts(BinaryFilter(p1, level), ev, matches) <==> Accepts(BinaryFilter(p2, level), ev, matches)
  {
    var procs := Selected(ev, level);
    if Accepts(BinaryFilter(p1, level), ev, matches) {
      var i, j :| 0 <= i < |procs| && 0 <= j < |p1| && procs[i].Some? && matches(p1[j], procs[i].value.binary);
      assert p1[j] in p2;
      var j' :| 0 <= j' < |p2| && p2[j'] == p1[j];
    }
    if Accepts(BinaryFilter(p2, level), ev, matches) {
      var i, j :| 0 <= i < |procs| && 0 <= j < |p2| && procs[i].Some? && matches(p2[j], procs[i].value.binary);
      assert p2[j] in p1;
      var j' :| 0 <= j' < |p1| && p1[j'] == p2[j];
    }
  }

  /** An ancestor-level filter looks at the ancestors only: it accepts exactly
      when some pattern matches some ancestor's binary, whatever the process and
      the parent are. */
  lemma AncestorLevelReadsOnlyAncestors(patterns: seq<string>, ev: Event, matches: (string, string) -> bool)
    ensures Accepts(BinaryFilter(patterns, AncestorBinary), ev, matches) <==>
              exists i, j :: 0 <= i < |ev.ancestors| && 0 <= j < |patterns| &&
                matches(patterns[j], ev.ancestors[i].binary)
  {
  }

  /** The process and parent levels accept exactly when the one inspected
      process is present and some pattern matches its binary. */
  lemma SingleLevelReadsOneProcess(patterns: seq<string>, level: Level, ev: Event, matches: (string, string) -> bool)
    requires level != AncestorBinary
    ensures var p := if level == ProcessBinary then ev.process else ev.parent;
            Accepts(BinaryFilter(patterns, level), ev, matches) <==>
              p.Some? && exists j :: 0 <= j < |patterns| && matches(patterns[j], p.value.binary)
  {
  }

  /** Nothing is accepted from a nil event, at any level and with any patterns. */
  lemma NilEventNeverMatches(f: BinaryFilter, matches: (string, string) -> bool)
    ensures !Accepts(f, NilEvent, matches)
  {
  }

  /** Patterns that are plain words (no regular-expression metacharacters)
      match wherever they occur in the binary. */
  predicate Contains(word: string, s: string) {
    exists k :: 0 <= k <= |s| && WordAt(s, k, word)
  }

  predicate WordAt(s: string, k: nat, word: string) {
    k + |word| <= |s| && s[k..k + |word|] == word
  }

  /** A word whose last character never occurs in `s` does not occur in `s`. */
  lemma AbsentLastCharacter(word: string, s: string)
    requires |word| > 0 && word[|word| - 1] !in s
    ensures !Contains(word, s)
  {
  }

  /** The ancestor test: with patterns `bash` and `zsh`, an event is accepted
      only when an ancestor's binary contains one of them; a matching process or
      parent binary does not count. The six events, in the test's order. */
  lemma AncestorFilterScenario()
    ensures var f := BinaryFilter(["bash", "zsh"], AncestorBinary);
            && !Accepts(f, Event(Some(Process("/sbin/iptables")), None, []), Contains)
            && !Accepts(f, Event(Some(Process("/sbin/bash")), Some(Process("/bin/foo")), []), Contains)
            && !Accepts(f, Event(Some(Process("/sbin/iptables")), Some(Process("/bin/bash")), []), Contains)
            && !Accepts(f, Event(Some(Process("/sbin/iptables")), Some(Process("/bin/bash")),
                                 [Process("/bin/foo"), Process("/bin/bar")]), Contains)
            && Accepts(f, Event(Some(Process("/sbin/iptables")), Some(Process("/bin/sh")),
                                [Process("/bin/foo"), Process("/bin/bash")]), Contains)
            && Accepts(f, Event(Some(Process("/sbin/iptables")), Some(Process("/bin/sh")),
                                [Process("/bin/zsh"), Process("/bin/foo")]), Contains)
  {
    var f := BinaryFilter(["bash", "zsh"], AncestorBinary);
    ScenarioNoAncestors(f, Event(Some(Process("/sbin/iptables")), None, []));
    ScenarioNoAncestors(f, Event(Some(Process("/sbin/bash")), Some(Process("/bin/foo")), []));
    ScenarioNoAncestors(f, Event(Some(Process("/sbin/iptables")), Some(Process("/bin/bash")), []));
    ScenarioQuietAncestors(f);
    ScenarioLastAncestorMatches(f);
    ScenarioFirstAncestorMatches(f);
  }

  /** Without ancestors nothing is accepted, whatever the process and parent. */
  lemma ScenarioNoAncestors(f: BinaryFilter, ev: Event)
    requires f == BinaryFilter(["bash", "zsh"], AncestorBinary) && ev.ancestors == []
    ensures !Accepts(f, ev, Contains)
  {
    AncestorLevelReadsOnlyAncestors(f.patterns, ev, Contains);
  }

  /** A matching parent binary does not count when no ancestor matches. */
  lemma ScenarioQuietAncestors(f: BinaryFilter)
    requires f == BinaryFilter(["bash", "zsh"], AncestorBinary)
    ensures !Accepts(f, Event(Some(Process("/sbin/iptables")), Some(Process("/bin/bash")),
                              [Process("/bin/foo"), Process("/bin/bar")]), Contains)
  {
    var quiet := Event(Some(Process("/sbin/iptables")), Some(Process("/bin/bash")), [Process("/bin/foo"), Process("/bin/bar")]);
    AbsentLastCharacter("bash", "/bin/foo");
    AbsentLastCharacter("bash", "/bin/bar");
    AbsentLastCharacter("zsh", "/bin/foo");
    AbsentLastCharacter("zsh", "/bin/bar");
    AncestorLevelReadsOnlyAncestors(f.patterns, quiet, Contains);
  }

  /** A last ancestor `/bin/bash` is enough. */
  lemma ScenarioLastAncestorMatches(f: BinaryFilter)
    requires f == BinaryFilter(["bash", "zsh"], AncestorBinary)
    ensures Accepts(f, Event(Some(Process("/sbin/iptables")), Some(Process("/bin/sh")),
                             [Process("/bin/foo"), Process("/bin/bash")]), Contains)
  {
    var ev := Event(Some(Process("/sbin/iptables")), Some(Process("/bin/sh")), [Process("/bin/foo"), Process("/bin/bash")]);
    AncestorLevelReadsOnlyAncestors(f.patterns, ev, Contains);
    assert WordAt(ev.ancestors[1].binary, 5, f.patterns[0]);
    assert Contains(f.patterns[0], ev.ancestors[1].binary);
  }

  /** So is a first ancestor `/bin/zsh`. */
  lemma ScenarioFirstAncestorMatches(f: BinaryFilter)
    requires f == BinaryFilter(["bash", "zsh"], AncestorBinary)
    ensures Accepts(f, Event(Some(Process("/sbin/iptables")), Some(Process("/bin/sh")),
                             [Process("/bin/zsh"), Process("/bin/foo")]), Contains)
  {
    var ev := Event(Some(Process("/sbin/iptables")), Some(Process("/bin/sh")), [Process("/bin/zsh"), Process("/bin/foo")]);
    AncestorLevelReadsOnlyAncestors(f.patterns, ev, Contains);
    assert WordAt(ev.ancestors[0].binary, 5, f.patterns[1]);
    assert Contains(f.patterns[1], ev.ancestors[0].binary);
  }
}

/** The two string hooks of the command-reference generator: the link rewriter
    that points a generated page's first Markdown link at the HTML page
    (`linkHandler`), and the header put in front of every generated file
    (`filePrepend`). */
module CmdRef {
  import opened Wrappers

  /** `pat` occurs in `s` starting at position `k`. */
  predicate OccursAt(s: string, k: int, pat: string) {
    0 <= k && k + |pat| <= |s| && s[k..k + |pat|] == pat
  }

  /** The first position at or after `from` where `pat` occurs in `s`. */
  function FirstOccurrence(s: string, pat: string, from: nat): (r: Option<nat>)
    ensures r.Some? ==> from <= r.value && OccursAt(s, r.value, pat)
    ensures r.Some? ==> forall k :: from <= k < r.value ==> !OccursAt(s, k, pat)
    ensures r.None? <==> forall k :: from <= k ==> !OccursAt(s, k, pat)
    decreases |s| - from
  {
    if from + |pat| > |s| then None
    else if s[from..from + |pat|] == pat then assert OccursAt(s, from, pat); Some(from)
    else FirstOccurrence(s, pat, from + 1)
  }

  /** `linkHandler`: replace the first `.md` with `.html` (at most one
      replacement). Without a `.md` the string is returned as it is. */
  function LinkHandler(s: string): (r: string)
    ensures (forall k :: !OccursAt(s, k, ".md")) ==> r == s
    ensures forall i :: OccursAt(s, i, ".md") && (forall k :: 0 <= k < i ==> !OccursAt(s, k, ".md")) ==>
              && |r| == |s| + 2
              && r[..i] == s[..i]
              && OccursAt(r, i, ".html")
              && r[i + 5..] == s[i + 3..]
  {
    match FirstOccurrence(s, ".md", 0)
    case None => s
    case Some(i) => s[..i] + ".html" + s[i + 3..]
  }

  /** Only the first link is rewritten: the result's `.md` occurrences are
      exactly those of the input after the first, moved two places right. */
  lemma LinkHandlerRewritesOnlyFirstLink(s: string, i: nat)
    requires OccursAt(s, i, ".md")
    requires forall k :: 0 <= k < i ==> !OccursAt(s, k, ".md")
    ensures forall k :: OccursAt(LinkHandler(s), k, ".md") <==> k >= i + 5 && OccursAt(s, k - 2, ".md")
  {
    var r := LinkHandler(s);
    forall k
      ensures OccursAt(r, k, ".md") <==> k >= i + 5 && OccursAt(s, k - 2, ".md")
    {
      if k < i + 5 {
        NoLinkUpToReplacement(s, r, i, k);
      } else {
        LaterLinkShifted(s, r, i, k);
      }
    }
  }

  /** Up to the end of the inserted `.html` the result holds no `.md`. */
  lemma NoLinkUpToReplacement(s: string, r: string, i: nat, k: int)
    requires OccursAt(s, i, ".md")
    requires forall k :: 0 <= k < i ==> !OccursAt(s, k, ".md")
    requires OccursAt(r, i, ".html") && r[..i] == s[..i]
    requires k < i + 5
    ensures !OccursAt(r, k, ".md")
  {
    if 0 <= k < i {
      NoLinkBeforeReplacement(s, r, i, k);
    } else if i <= k {
      NoLinkInsideReplacement(r, i, k);
    }
  }

  /** After the inserted `.html` the result is the input moved two places
      right, and so are its `.md` occurrences. */
  lemma LaterLinkShifted(s: string, r: string, i: nat, k: int)
    requires i + 3 <= |s| && |r| == |s| + 2 && i + 5 <= |r|
    requires r[i + 5..] == s[i + 3..]
    requires k >= i + 5
    ensures OccursAt(r, k, ".md") <==> OccursAt(s, k - 2, ".md")
  {
    if k + 3 <= |r| {
      assert r[k..k + 3] == r[i + 5..][k - i - 5..k - i - 2];
      assert s[k - 2..k + 1] == s[i + 3..][k - i - 5..k - i - 2];
    }
  }

  /** Before the replaced link the result holds no `.md`: the input has none
      there, and the `.` that opens `.html` cannot finish one. */
  lemma NoLinkBeforeReplacement(s: string, r: string, i: nat, k: nat)
    requires OccursAt(s, i, ".md")
    requires forall k :: 0 <= k < i ==> !OccursAt(s, k, ".md")
    requires OccursAt(r, i, ".html") && r[..i] == s[..i]
    requires k < i
    ensures !OccursAt(r, k, ".md")
  {
    if k + 3 <= i {
      assert r[k..k + 3] == r[..i][k..k + 3];
      assert s[k..k + 3] == s[..i][k..k + 3];
      assert !OccursAt(s, k, ".md");
    } else {
      assert r[i] == r[i..i + 5][0];
    }
  }

  /** No `.md` starts inside the inserted `.html`. */
  lemma NoLinkInsideReplacement(r: string, i: nat, k: nat)
    requires OccursAt(r, i, ".html")
    requires i <= k < i + 5
    ensures !OccursAt(r, k, ".md")
  {
    assert r[k] == r[i..i + 5][k - i];
    assert r[i + 1] == 'h';
  }

  /** A string that is one HTML comment: it opens with `<!--`, ends with
      `-->`, and no `-->` inside it closes it early. */
  predicate IsHtmlComment(c: string) {
    && |c| >= 7
    && c[..4] == "<!--"
    && c[|c| - 3..] == "-->"
    && forall k :: 0 <= k < |c| - 3 ==> !OccursAt(c, k, "-->")
  }

  /** The text between the comment markers of the generated-file notice. */
  const NoticeText: string := " This file was autogenerated" + " via tetragon-operator" + " --cmdref, do not edit manually"

  const AutogeneratedNotice: string := "<!--" + NoticeText + "-->"

  /** `filePrepend`: the same header for every file, whatever its name: the
      notice as one HTML comment, then an empty line. */
  function FilePrepend(fileName: string): (r: string)
    ensures |r| >= 2 && r[|r| - 2..] == "\n\n"
    ensures r[..|r| - 2] == AutogeneratedNotice
    ensures IsHtmlComment(r[..|r| - 2])
  {
    NoticeIsOneComment();
    var r := AutogeneratedNotice + "\n\n";
    assert r[..|r| - 2] == AutogeneratedNotice;
    r
  }

  /** The notice is a single comment: no `>` occurs before its last character,
      so nothing in it closes the comment early. */
  lemma NoticeIsOneComment()
    ensures IsHtmlComment(AutogeneratedNotice)
  {
    var c := AutogeneratedNotice;
    assert '>' !in " This file was autogenerated";
    assert '>' !in " via tetragon-operator";
    assert '>' !in " --cmdref, do not edit manually";
    assert c[..|c| - 1] == "<!--" + NoticeText + "--";
    assert c[..4] == "<!--";
    assert c[|c| - 3..] == "-->";
    forall k | 0 <= k < |c| - 3
      ensures !OccursAt(c, k, "-->")
    {
      assert c[k + 2] == c[..|c| - 1][k + 2];
      assert c[k..k + 3][2] == c[k + 2];
    }
  }
}

/** Branch names and the registry tags they publish to. */
module Branches {
  import opened Common

  const DEFAULT_BRANCH := "main"
  const BRANCH_TAG_PREFIX := "br."
  const MAX_TAG_LENGTH := 128

  datatype NameError = BadGrammar | TagTooLong

  // --- The two regular expressions ------------------------------------------

  predicate IsAlnum(c: char) {
    'A' <= c <= 'Z' || 'a' <= c <= 'z' || '0' <= c <= '9'
  }

  predicate IsSegmentChar(c: char) {
    IsAlnum(c) || c == '_' || c == '-'
  }

  predicate IsSegment(s: string) {
    |s| > 0 && IsAlnum(s[0]) && forall i | 0 <= i < |s| :: IsSegmentChar(s[i])
  }

  /** One or more segments joined by '/': either a last segment, or a segment, a '/' and a name. */
  predicate MatchesName(s: string)
    decreases |s|, 1
  {
    IsSegment(s) || exists i | 0 <= i < |s| :: SplitsAt(s, i)
  }

  predicate SplitsAt(s: string, i: nat)
    requires i < |s|
    decreases |s|, 0
  {
    s[i] == '/' && IsSegment(s[..i]) && MatchesName(s[i + 1..])
  }

  predicate IsTagStart(c: char) {
    IsAlnum(c) || c == '_'
  }

  predicate IsTagChar(c: char) {
    IsTagStart(c) || c == '.' || c == '-'
  }

  /** A legal OCI tag. */
  predicate MatchesTag(s: string) {
    1 <= |s| <= MAX_TAG_LENGTH && IsTagStart(s[0]) && forall i | 0 <= i < |s| :: IsTagChar(s[i])
  }

  // --- The mapping -----------------------------------------------------------

  function ValidateBranchName(name: string): (r: Result<string, NameError>) {
    if !MatchesName(name) then Err(BadGrammar)
    else if name != DEFAULT_BRANCH && |BRANCH_TAG_PREFIX| + |name| > MAX_TAG_LENGTH then Err(TagTooLong)
    else Ok(name)
  }

  function Replace(s: string, from: char, to: char): (r: string) {
    seq(|s|, i requires 0 <= i < |s| => if s[i] == from then to else s[i])
  }

  function TagFor(name: string, defaultTag: string): (r: Result<string, NameError>) {
    match ValidateBranchName(name)
    case Err(e) => Err(e)
    case Ok(_) =>
      if name == DEFAULT_BRANCH then Ok(defaultTag) else Ok(BRANCH_TAG_PREFIX + Replace(name, '/', '.'))
  }

  function BranchForTag(tag: string, defaultTag: string): (r: Option<string>) {
    if tag == defaultTag then Some(DEFAULT_BRANCH)
    else if !(BRANCH_TAG_PREFIX <= tag) || !MatchesTag(tag) then None
    else
      var name := Replace(tag[|BRANCH_TAG_PREFIX|..], '.', '/');
      if ValidateBranchName(name).Err? || name == DEFAULT_BRANCH then None else Some(name)
  }

  // --- What a name looks like, position by position ---------------------------

  /** The grammar said without recursion: where '/' may stand, and what may follow it. */
  ghost predicate WellSegmented(s: string) {
    && |s| > 0 && IsAlnum(s[0])
    && (forall i | 0 <= i < |s| :: s[i] == '/' || IsAlnum(s[i]) || s[i] == '_' || s[i] == '-')
    && (forall i | 0 <= i < |s| && s[i] == '/' :: i + 1 < |s| && IsAlnum(s[i + 1]))
  }

  lemma {:induction false} NameIsWellSegmented(s: string)
    ensures MatchesName(s) <==> WellSegmented(s)
    decreases |s|, 1
  {
    if MatchesName(s) { NameSegments(s); }
    if WellSegmented(s) { SegmentsName(s); }
  }

  lemma {:induction false} NameSegments(s: string)
    requires MatchesName(s)
    ensures WellSegmented(s)
    decreases |s|, 0
  {
    if !IsSegment(s) {
      var i :| 0 <= i < |s| && SplitsAt(s, i);
      NameSegments(s[i + 1..]);
      JoinedSegments(s[..i], s[i + 1..]);
      assert s == s[..i] + ['/'] + s[i + 1..];
    }
  }

  lemma JoinedSegments(first: string, rest: string)
    requires IsSegment(first) && WellSegmented(rest)
    ensures WellSegmented(first + ['/'] + rest)
  {
    var s := first + ['/'] + rest;
    var n := |first|;
    assert s[n] == '/' && s[n + 1] == rest[0];
    forall j | 0 <= j < |s|
      ensures s[j] == '/' || IsSegmentChar(s[j])
      ensures s[j] == '/' ==> j + 1 < |s| && IsAlnum(s[j + 1])
    {
      if j < n {
        assert s[j] == first[j];
      } else if n < j {
        assert s[j] == rest[j - n - 1];
        if s[j] == '/' { assert s[j + 1] == rest[j - n]; }
      }
    }
  }

  lemma {:induction false} SegmentsName(s: string)
    requires WellSegmented(s)
    ensures MatchesName(s)
    decreases |s|, 0
  {
    if '/' in s {
      FirstSlash(s);
      var i :| 0 <= i < |s| && s[i] == '/' && '/' !in s[..i];
      var first, rest := s[..i], s[i + 1..];
      forall j | 0 <= j < i
        ensures IsSegmentChar(first[j])
      {
        assert first[j] in first && first[j] == s[j];
      }
      assert IsSegment(first) by { assert i != 0; }
      forall j | 0 <= j < |rest|
        ensures rest[j] == '/' || IsSegmentChar(rest[j])
        ensures rest[j] == '/' ==> j + 1 < |rest| && IsAlnum(rest[j + 1])
      {
        assert rest[j] == s[i + 1 + j];
      }
      SegmentsName(rest);
      assert SplitsAt(s, i);
    }
  }

  lemma FirstSlash(s: string)
    requires '/' in s
    ensures exists i | 0 <= i < |s| :: s[i] == '/' && '/' !in s[..i]
  {
    var i :| 0 <= i < |s| && s[i] == '/';
    if '/' in s[..i] {
      FirstSlash(s[..i]);
      var j :| 0 <= j < i && s[..i][j] == '/' && '/' !in s[..i][..j];
      assert s[..i][..j] == s[..j];
    }
  }

  /** The names that are valid: well segmented, and short enough for a tag of 128 characters with its prefix. */
  lemma ValidNamesExactly(name: string)
    ensures ValidateBranchName(name).Ok? <==> WellSegmented(name) && |BRANCH_TAG_PREFIX + name| <= 128
    ensures ValidateBranchName(name).Ok? ==> ValidateBranchName(name) == Ok(name)
  {
    NameIsWellSegmented(name);
  }

  // --- The mapping is reversible ----------------------------------------------

  /** Every tag a non-default branch publishes to is a legal OCI tag of at most 128 characters. */
  lemma BranchTagsAreLegal(name: string, defaultTag: string)
    requires TagFor(name, defaultTag).Ok? && name != DEFAULT_BRANCH
    ensures var tag := TagFor(name, defaultTag).value;
            MatchesTag(tag) && |tag| <= MAX_TAG_LENGTH && BRANCH_TAG_PREFIX <= tag
              && tag[3..] == Replace(name, '/', '.')
  {
    NameIsWellSegmented(name);
    var tag := TagFor(name, defaultTag).value;
    assert tag[3..] == Replace(name, '/', '.');
    forall i | 0 <= i < |tag|
      ensures IsTagChar(tag[i])
    {
      if 3 <= i { assert tag[i] == Replace(name, '/', '.')[i - 3]; }
    }
  }

  /** The name comes back from its tag exactly when the tag is not the one the default branch took. */
  lemma NameComesBack(name: string, defaultTag: string)
    requires ValidateBranchName(name).Ok?
    ensures TagFor(name, defaultTag).Ok?
    ensures var tag := TagFor(name, defaultTag).value;
            BranchForTag(tag, defaultTag) == Some(name) <==> (name == DEFAULT_BRANCH || tag != defaultTag)
  {
    if name != DEFAULT_BRANCH {
      BranchTagsAreLegal(name, defaultTag);
      NameIsWellSegmented(name);
      assert Replace(Replace(name, '/', '.'), '.', '/') == name;
    }
  }

  /** Every branch read off a tag publishes to that very tag. */
  lemma TagComesBack(tag: string, defaultTag: string)
    requires BranchForTag(tag, defaultTag).Some?
    ensures TagFor(BranchForTag(tag, defaultTag).value, defaultTag) == Ok(tag)
  {
    if tag != defaultTag {
      var rest := tag[3..];
      assert forall i | 0 <= i < |rest| :: IsTagChar(rest[i]) by {
        assert forall i | 0 <= i < |rest| :: rest[i] == tag[i + 3];
      }
      assert Replace(Replace(rest, '.', '/'), '/', '.') == rest;
      assert tag == BRANCH_TAG_PREFIX + rest;
    }
  }

  /** Two branches never publish to one tag, unless the default branch's tag was chosen to collide. */
  lemma TagsAreDistinct(a: string, b: string, defaultTag: string)
    requires TagFor(a, defaultTag).Ok? && TagFor(b, defaultTag).Ok?
    requires TagFor(a, defaultTag) == TagFor(b, defaultTag) && TagFor(a, defaultTag).value != defaultTag
    ensures a == b
  {
    NameComesBack(a, defaultTag);
    NameComesBack(b, defaultTag);
  }

  /** A default tag that looks like a branch's tag hides that branch. */
  lemma HiddenBehindTheDefaultTag()
    ensures TagFor("a", "br.a") == Ok("br.a") && BranchForTag("br.a", "br.a") == Some(DEFAULT_BRANCH)
    ensures BranchForTag(TagFor("a", "br.a").value, "br.a") != Some("a")
  {
    NameComesBack("a", "br.a");
    assert Replace("a", '/', '.') == "a";
  }
}

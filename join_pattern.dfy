/** The raw-SQL join recogniser `value =~ /join (\w+)/i` followed by `$1`: the leftmost place where
    "join" (any letter case) and one space are followed by a word character, and the longest run
    of ASCII word characters starting there. */
module JoinPattern {
  import opened Values

  /** `\w` in a Ruby regular expression: an ASCII letter, digit or underscore. */
  predicate IsWordChar(c: char) {
    ('a' <= c <= 'z') || ('A' <= c <= 'Z') || ('0' <= c <= '9') || c == '_'
  }

  /** Case-insensitive equality of one character with a lower-case ASCII letter or a space. */
  predicate SameLetter(c: char, lower: char) {
    c == lower || ('a' <= lower <= 'z' && c as int == lower as int - 32)
  }

  /** The regular expression matches with its match starting at `i`. */
  predicate MatchesAt(s: string, i: nat) {
    i + 6 <= |s|
    && SameLetter(s[i], 'j') && SameLetter(s[i + 1], 'o') && SameLetter(s[i + 2], 'i')
    && SameLetter(s[i + 3], 'n') && s[i + 4] == ' '
    && IsWordChar(s[i + 5])
  }

  /** The greedy `\w+` run of `s` starting at `i`. */
  function WordRun(s: string, i: nat): (w: string)
    requires i <= |s|
    decreases |s| - i
  {
    if i < |s| && IsWordChar(s[i]) then [s[i]] + WordRun(s, i + 1) else []
  }

  /** The first capture of the leftmost match at or after `i`, if any. */
  function CaptureFrom(s: string, i: nat): Option<string>
    requires i <= |s|
    decreases |s| - i
  {
    if i + 6 > |s| then None
    else if MatchesAt(s, i) then Some(WordRun(s, i + 5))
    else CaptureFrom(s, i + 1)
  }

  /** `$1` after `s =~ /join (\w+)/i`, or None when the string does not match. */
  function JoinCapture(s: string): Option<string> {
    CaptureFrom(s, 0)
  }

  lemma {:induction false} WordRunShape(s: string, i: nat)
    requires i <= |s|
    ensures i + |WordRun(s, i)| <= |s|
    ensures WordRun(s, i) == s[i..i + |WordRun(s, i)|]
    ensures forall c :: c in WordRun(s, i) ==> IsWordChar(c)
    ensures i + |WordRun(s, i)| == |s| || !IsWordChar(s[i + |WordRun(s, i)|])
    decreases |s| - i
  {
    if i < |s| && IsWordChar(s[i]) {
      WordRunShape(s, i + 1);
    }
  }

  lemma {:induction false} CaptureFromSound(s: string, i: nat)
    requires i <= |s|
    ensures CaptureFrom(s, i).Some? ==>
      exists k :: i <= k && MatchesAt(s, k) && CaptureFrom(s, i).value == WordRun(s, k + 5)
        && forall j :: i <= j < k ==> !MatchesAt(s, j)
    ensures CaptureFrom(s, i).None? ==> forall j :: i <= j ==> !MatchesAt(s, j)
    decreases |s| - i
  {
    if i + 6 > |s| {
    } else if MatchesAt(s, i) {
    } else {
      CaptureFromSound(s, i + 1);
      var r := CaptureFrom(s, i + 1);
      if r.Some? {
        var k :| i + 1 <= k && MatchesAt(s, k) && r.value == WordRun(s, k + 5)
          && forall j :: i + 1 <= j < k ==> !MatchesAt(s, j);
        assert forall j :: i <= j < k ==> !MatchesAt(s, j);
      }
    }
  }

  /** The capture is the word run after the LEFTMOST match; the string has no match exactly when
      there is no capture; and a capture is a non-empty run of word characters that stops at a
      non-word character or at the end of the string. */
  lemma JoinCaptureSpec(s: string)
    ensures JoinCapture(s).None? <==> forall j: nat :: !MatchesAt(s, j)
    ensures JoinCapture(s).Some? ==>
      exists k: nat :: MatchesAt(s, k) && JoinCapture(s).value == WordRun(s, k + 5)
        && forall j: nat :: j < k ==> !MatchesAt(s, j)
    ensures JoinCapture(s).Some? ==>
      |JoinCapture(s).value| > 0 && forall c :: c in JoinCapture(s).value ==> IsWordChar(c)
  {
    CaptureFromSound(s, 0);
    if JoinCapture(s).Some? {
      var k: nat :| MatchesAt(s, k) && JoinCapture(s).value == WordRun(s, k + 5);
      WordRunShape(s, k + 5);
    }
  }

  /** The recogniser reads the keyword case-insensitively: "INNER JOIN posts" captures "posts". */
  lemma UpperCaseJoinCaptures()
    ensures JoinCapture("INNER JOIN posts") == Some("posts")
  {
    var s := "INNER JOIN posts";
    assert WordRun(s, 16) == [];
    assert WordRun(s, 11) == "posts";
    assert MatchesAt(s, 6);
    assert CaptureFrom(s, 6) == Some("posts");
    assert !MatchesAt(s, 5) && !MatchesAt(s, 4) && !MatchesAt(s, 3);
    assert CaptureFrom(s, 3) == Some("posts");
    assert !MatchesAt(s, 2) && !MatchesAt(s, 1) && !MatchesAt(s, 0);
  }

  /** Only a single space is accepted after the keyword: two spaces make the string unreadable. */
  lemma TwoSpacesDoNotMatch()
    ensures JoinCapture("join  authors") == None
  {
    var s := "join  authors";
    assert !MatchesAt(s, 0);
    assert forall j :: 1 <= j ==> !MatchesAt(s, j);
  }
}

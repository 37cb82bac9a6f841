/** A hand-written scanner for the one pattern the doc-sync checker searches
    ADR texts with,   `(scripts/[a-zA-Z0-9_./-]+\.py)`   (a backtick, the
    captured path, a backtick), used with find-all semantics: matches are
    searched left to right, do not overlap, and the search resumes just after
    the closing backtick of the previous match. */
module ScriptScanner {

  datatype Option<T> = None | Some(value: T)

  /** One match: the indices of its two backticks and the captured path. */
  datatype Match = Match(open: nat, close: nat, path: string)

  const Prefix: string := "scripts/"
  const Suffix: string := ".py"

  /** The character class `[a-zA-Z0-9_./-]`. */
  predicate IsPathChar(c: char) {
    ('a' <= c <= 'z') || ('A' <= c <= 'Z') || ('0' <= c <= '9') || c == '_' || c == '.' || c == '/' || c == '-'
  }

  /** The pattern, read literally: it matches at `i` with its closing
      backtick at `k` when s[i] is a backtick, "scripts/" follows, then one or
      more class characters, then ".py", then a backtick at `k`. */
  ghost predicate PatternAt(s: string, i: nat, k: nat) {
    && i + 13 <= k < |s|
    && s[i] == '`'
    && s[i + 1..i + 9] == Prefix
    && (forall p :: i + 9 <= p < k - 3 ==> IsPathChar(s[p]))
    && s[k - 3..k] == Suffix
    && s[k] == '`'
  }

  /** End of the longest run of class characters starting at `j`. */
  function RunEnd(s: string, j: nat): (k: nat)
    requires j <= |s|
    ensures j <= k <= |s|
    decreases |s| - j
  {
    if j == |s| || !IsPathChar(s[j]) then j else RunEnd(s, j + 1)
  }

  /** The run is made of class characters and stops at the first character
      outside the class, or at the end of the text. */
  lemma {:induction false} RunEndSpec(s: string, j: nat)
    requires j <= |s|
    ensures forall p :: j <= p < RunEnd(s, j) ==> IsPathChar(s[p])
    ensures RunEnd(s, j) == |s| || !IsPathChar(s[RunEnd(s, j)])
    decreases |s| - j
  {
    if j < |s| && IsPathChar(s[j]) {
      RunEndSpec(s, j + 1);
    }
  }

  /** Any such stopping point is the end of the run. */
  lemma {:induction false} RunEndAt(s: string, j: nat, k: nat)
    requires j <= k <= |s|
    requires forall p :: j <= p < k ==> IsPathChar(s[p])
    requires k == |s| || !IsPathChar(s[k])
    ensures RunEnd(s, j) == k
    decreases k - j
  {
    if j < k {
      RunEndAt(s, j + 1, k);
    }
  }

  /** Where the match that opens at `i` closes, if the pattern matches there.
      The backtick is outside the class and ".py" is inside it, so a match
      can only close right where the run of class characters after
      "scripts/" ends. */
  function MatchAt(s: string, i: nat): (r: Option<nat>)
    ensures r.Some? ==> i + 13 <= r.value < |s|
  {
    if i + 9 <= |s| && s[i] == '`' && s[i + 1..i + 9] == Prefix then
      var k := RunEnd(s, i + 9);
      if i + 13 <= k < |s| && s[k] == '`' && s[k - 3..k] == Suffix then Some(k) else None
    else None
  }

  /** `findall` from position `i` on, with the positions of each match. A
      match spans at least 14 characters (two backticks, "scripts/", one
      class character, ".py") and matches do not overlap, so at most a
      fourteenth of the remaining text is matched. */
  function Scan(s: string, i: nat): (r: seq<Match>)
    ensures r != [] ==> i + 14 * |r| <= |s|
    decreases |s| - i
  {
    if i >= |s| then []
    else
      match MatchAt(s, i)
      case Some(k) => [Match(i, k, s[i + 1..k])] + Scan(s, k + 1)
      case None => Scan(s, i + 1)
  }

  /** The list of captured paths `findall` returns, one per match. */
  function FindAll(s: string): (r: seq<string>)
    ensures |r| == |Scan(s, 0)| && 14 * |r| <= |s|
  {
    var ms := Scan(s, 0);
    seq(|ms|, j requires 0 <= j < |ms| => ms[j].path)
  }

  /** A well-formed reference: "scripts/", at least one class character,
      ".py", and nothing but class characters. */
  ghost predicate IsScriptPath(p: string) {
    && |p| >= 12
    && p[..8] == Prefix
    && p[|p| - 3..] == Suffix
    && forall q :: 0 <= q < |p| ==> IsPathChar(p[q])
  }

  /** `r` stands between two backticks in `s`, the first one at `i`. */
  ghost predicate QuotedAt(s: string, r: string, i: nat) {
    i + |r| + 2 <= |s| && s[i..i + |r| + 2] == "`" + r + "`"
  }

  // ---------------------------------------------------------------------
  // Lemmas
  // ---------------------------------------------------------------------

  /** Every reported match is a match of the pattern at or after `i`, and
      its path is the text between its backticks. */
  lemma {:induction false} ScanMatchSound(s: string, i: nat, j: nat)
    requires j < |Scan(s, i)|
    ensures i <= Scan(s, i)[j].open
    ensures MatchAt(s, Scan(s, i)[j].open) == Some(Scan(s, i)[j].close)
    ensures Scan(s, i)[j].path == s[Scan(s, i)[j].open + 1..Scan(s, i)[j].close]
    decreases |s| - i
  {
    assert i < |s|;
    var found, next := ScanStep(s, i);
    var m := Scan(s, i)[j];
    if !found {
      ScanMatchSound(s, next, j);
    } else if j == 0 {
      assert m == Match(i, next - 1, s[i + 1..next - 1]);
    } else {
      ScanMatchSound(s, next, j - 1);
      assert m == Scan(s, next)[j - 1];
    }
  }

  /** Matches come in text order and share no character: each one closes
      before the next one opens. */
  lemma {:induction false} ScanOrdered(s: string, i: nat, a: nat, b: nat)
    requires a < b < |Scan(s, i)|
    ensures Scan(s, i)[a].close < Scan(s, i)[b].open
    decreases |s| - i
  {
    assert i < |s|;
    var found, next := ScanStep(s, i);
    var ma, mb := Scan(s, i)[a], Scan(s, i)[b];
    if !found {
      ScanOrdered(s, next, a, b);
    } else if a == 0 {
      ScanMatchSound(s, next, b - 1);
      assert ma.close == next - 1 && mb == Scan(s, next)[b - 1];
    } else {
      ScanOrdered(s, next, a - 1, b - 1);
      assert ma == Scan(s, next)[a - 1] && mb == Scan(s, next)[b - 1];
    }
  }

  /** One step of the scan from `i`: whether a match opens at `i`, where the
      scan resumes, and how the list from `i` is built from the list from
      there. */
  lemma ScanStep(s: string, i: nat) returns (found: bool, next: nat)
    requires i < |s|
    ensures i < next
    ensures !found ==> next == i + 1 && Scan(s, i) == Scan(s, next)
    ensures found ==> MatchAt(s, i) == Some(next - 1)
    ensures found ==> |Scan(s, i)| == |Scan(s, next)| + 1
    ensures found ==> Scan(s, i)[0] == Match(i, next - 1, s[i + 1..next - 1])
    ensures found ==> forall j :: 0 < j < |Scan(s, i)| ==> Scan(s, i)[j] == Scan(s, next)[j - 1]
  {
    match MatchAt(s, i)
    case Some(k) => found, next := true, k + 1;
    case None => found, next := false, i + 1;
  }

  /** The scanner's test at one position agrees with the pattern. */
  lemma MatchAtIsPattern(s: string, i: nat, k: nat)
    ensures MatchAt(s, i) == Some(k) <==> PatternAt(s, i, k)
  {
    if PatternAt(s, i, k) {
      assert s[k - 3..k] == Suffix;
      forall p | i + 9 <= p < k ensures IsPathChar(s[p]) {
        if p >= k - 3 {
          assert s[p] == Suffix[p - (k - 3)];
        }
      }
      RunEndAt(s, i + 9, k);
    }
    if MatchAt(s, i) == Some(k) {
      RunEndSpec(s, i + 9);
      assert PatternAt(s, i, k);
    }
  }

  /** Leftmost, non-overlapping: every position where the pattern matches is
      either the start of a reported match or lies inside an earlier one,
      its closing backtick included. */
  lemma {:induction false} ScanLeftmost(s: string, i: nat, p: nat, k: nat)
    requires i <= p && PatternAt(s, p, k)
    ensures exists j :: 0 <= j < |Scan(s, i)| && Scan(s, i)[j].open <= p <= Scan(s, i)[j].close
    decreases |s| - i
  {
    MatchAtIsPattern(s, p, k);
    var found, next := ScanStep(s, i);
    var ms := Scan(s, i);
    if p == i {
      assert ms[0] == Match(i, k, s[i + 1..k]);
    } else if !found {
      ScanLeftmost(s, next, p, k);
    } else if p < next {
      assert ms[0].open <= p <= ms[0].close;
    } else {
      ScanLeftmost(s, next, p, k);
      var j :| 0 <= j < |Scan(s, next)| && Scan(s, next)[j].open <= p <= Scan(s, next)[j].close;
      assert ms[j + 1] == Scan(s, next)[j];
    }
  }

  /** What every reference looks like: a well-formed script path that stood
      between two backticks in the text. */
  lemma FoundReferenceShape(s: string, r: string)
    requires r in FindAll(s)
    ensures IsScriptPath(r)
    ensures exists i :: QuotedAt(s, r, i)
  {
    var i, k := FoundMatch(s, r);
    PatternShape(s, i, k);
  }

  /** The text a match captures is a well-formed script path, quoted. */
  lemma PatternShape(s: string, i: nat, k: nat)
    requires PatternAt(s, i, k)
    ensures IsScriptPath(s[i + 1..k]) && QuotedAt(s, s[i + 1..k], i)
  {
    var r := s[i + 1..k];
    assert r[..8] == s[i + 1..i + 9];
    assert r[|r| - 3..] == s[k - 3..k];
    ReferenceChars(s, i, k);
    forall q | 0 <= q < |r| ensures IsPathChar(r[q]) {
      assert r[q] == s[i + 1 + q];
    }
    assert s[i..k + 1] == "`" + r + "`";
  }

  lemma FoundMatch(s: string, r: string) returns (i: nat, k: nat)
    requires r in FindAll(s)
    ensures PatternAt(s, i, k) && r == s[i + 1..k]
  {
    var ms := Scan(s, 0);
    var j :| 0 <= j < |ms| && FindAll(s)[j] == r;
    ScanMatchSound(s, 0, j);
    i, k := ms[j].open, ms[j].close;
    MatchAtIsPattern(s, i, k);
  }

  lemma ReferenceChars(s: string, i: nat, k: nat)
    requires PatternAt(s, i, k)
    ensures forall q :: i + 1 <= q < k ==> IsPathChar(s[q])
  {
    forall q | i + 1 <= q < k ensures IsPathChar(s[q]) {
      if q >= k - 3 {
        assert s[q] == s[k - 3..k][q - (k - 3)];
      } else if q < i + 9 {
        assert s[q] == s[i + 1..i + 9][q - (i + 1)];
      }
    }
  }

  /** Every well-formed reference between backticks is found. */
  lemma QuotedPathFound(p: string)
    requires IsScriptPath(p)
    ensures FindAll("`" + p + "`") == [p]
  {
    var s := "`" + p + "`";
    QuotedFirstMatch(s, p, "`");
    NoBacktickBeforeLast(s, |p| + 2);
    OnlyMatch(s, |p| + 1);
  }

  /** A closing backtick is never reused to open the next match: when two
      references share the backtick between them, as in
      "`scripts/a.py`scripts/b.py`", only the first one is found. */
  lemma ClosingBacktickNotReused(p1: string, p2: string)
    requires IsScriptPath(p1) && IsScriptPath(p2)
    ensures FindAll("`" + p1 + "`" + p2 + "`") == [p1]
  {
    var s := "`" + p1 + "`" + p2 + "`";
    var rest := "`" + p2 + "`";
    var close := |p1| + 1;
    assert s == "`" + p1 + rest;
    QuotedFirstMatch(s, p1, rest);
    QuotedTailChars(s, "`" + p1, p2);
    NoBacktickBeforeLast(s, close + 1);
    OnlyMatch(s, close);
  }

  lemma QuotedTailChars(s: string, head: string, p: string)
    requires IsScriptPath(p) && s == head + "`" + p + "`"
    ensures forall q :: |head| + 1 <= q < |s| - 1 ==> IsPathChar(s[q])
  {
    forall q | |head| + 1 <= q < |s| - 1 ensures IsPathChar(s[q]) {
      assert s[q] == p[q - |head| - 1];
    }
  }

  /** One match at the start and nothing after it: `findall` returns its path. */
  lemma OnlyMatch(s: string, close: nat)
    requires MatchAt(s, 0) == Some(close) && Scan(s, close + 1) == []
    ensures FindAll(s) == [s[1..close]]
  {
    var ms := Scan(s, 0);
    assert ms == [Match(0, close, s[1..close])];
  }

  /** A reference right at the start, quoted, is the first match. */
  lemma QuotedFirstMatch(s: string, p: string, rest: string)
    requires IsScriptPath(p) && s == "`" + p + rest && rest != [] && rest[0] == '`'
    ensures MatchAt(s, 0) == Some(|p| + 1) && s[1..|p| + 1] == p
  {
    var close := |p| + 1;
    assert s[1..close] == p;
    assert s[1..9] == p[..8];
    assert s[close - 3..close] == p[|p| - 3..];
    assert s[close] == '`';
    forall q | 9 <= q < close ensures IsPathChar(s[q]) {
      assert s[q] == p[q - 1];
    }
    RunEndAt(s, 9, close);
  }

  /** The scan from `i` finds nothing when no backtick occurs from `i` up to
      the last character: a match needs one at its start, with "scripts/"
      after it. */
  lemma {:induction false} NoBacktickBeforeLast(s: string, i: nat)
    requires forall q :: i <= q < |s| - 1 ==> IsPathChar(s[q])
    ensures Scan(s, i) == []
    decreases |s| - i
  {
    if i < |s| {
      assert MatchAt(s, i) == None;
      NoBacktickBeforeLast(s, i + 1);
    }
  }
}

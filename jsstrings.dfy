/** The pieces of the JavaScript string library that the core relies on:
    `trim`, `toLowerCase`/`toUpperCase` (ASCII letters), `split` and `join`,
    and a literal global `replace`. */
module JsStrings {

  /** A JavaScript WhiteSpace or LineTerminator code point: what `trim`
      strips and what the regular-expression class `\s` matches. */
  predicate IsSpace(c: char) {
    || c == '\t' || c == '\n' || c == '\U{B}' || c == '\U{C}' || c == '\r' || c == ' '
    || c == '\U{A0}' || c == '\U{1680}' || ('\U{2000}' <= c <= '\U{200A}')
    || c == '\U{2028}' || c == '\U{2029}' || c == '\U{202F}' || c == '\U{205F}'
    || c == '\U{3000}' || c == '\U{FEFF}'
  }

  predicate AllSpace(s: string) {
    forall i :: 0 <= i < |s| ==> IsSpace(s[i])
  }

  /** Every character of `s` at a position in `[a, b)` is white space. */
  predicate SpaceBetween(s: string, a: int, b: int) {
    forall k :: a <= k < b && 0 <= k < |s| ==> IsSpace(s[k])
  }

  /** The first position at or after `i` that does not hold white space
      (or `|s|`), given that everything before `i` is white space. */
  function SkipSpaces(s: string, i: nat): (r: nat)
    requires i <= |s| && SpaceBetween(s, 0, i)
    ensures i <= r <= |s| && SpaceBetween(s, 0, r)
    ensures r == |s| || !IsSpace(s[r])
    decreases |s| - i
  {
    if i < |s| && IsSpace(s[i]) then SkipSpaces(s, i + 1) else i
  }

  /** The last position at or before `j` that follows a character that is
      not white space (or 0), given that everything from `j` on is white
      space. */
  function SkipSpacesBack(s: string, j: nat): (r: nat)
    requires j <= |s| && SpaceBetween(s, j, |s|)
    ensures r <= j && SpaceBetween(s, r, |s|)
    ensures r == 0 || !IsSpace(s[r - 1])
  {
    if j > 0 && IsSpace(s[j - 1]) then SkipSpacesBack(s, j - 1) else j
  }

  /** Where the text of `s` starts once leading white space is skipped. */
  function TrimStartIndex(s: string): (i: nat)
    ensures i <= |s| && SpaceBetween(s, 0, i) && (i == |s| || !IsSpace(s[i]))
  {
    SkipSpaces(s, 0)
  }

  /** Where the text of `s` ends once trailing white space is dropped. */
  function TrimEndIndex(s: string): (j: nat)
    ensures j <= |s| && SpaceBetween(s, j, |s|) && (j == 0 || !IsSpace(s[j - 1]))
  {
    SkipSpacesBack(s, |s|)
  }

  /** The blank prefix is determined by where the first non-blank character is. */
  lemma TrimStartIndexUnique(s: string, i: nat)
    requires i <= |s| && SpaceBetween(s, 0, i) && (i == |s| || !IsSpace(s[i]))
    ensures TrimStartIndex(s) == i
  {
  }

  /** The blank suffix is determined by where the last non-blank character is. */
  lemma TrimEndIndexUnique(s: string, j: nat)
    requires j <= |s| && SpaceBetween(s, j, |s|) && (j == 0 || !IsSpace(s[j - 1]))
    ensures TrimEndIndex(s) == j
  {
  }

  /** `String.prototype.trim`: the slice of `s` left after removing the white
      space at both ends. */
  function Trim(s: string): (r: string)
    ensures r == [] || (!IsSpace(r[0]) && !IsSpace(r[|r| - 1]))
  {
    var i, j := TrimStartIndex(s), TrimEndIndex(s);
    if i == |s| then []
    else
      assert i < j;
      s[i..j]
  }

  /** Trimming a string whose ends around a non-blank-edged slice are blank
      gives that slice. */
  lemma TrimSlice(s: string, i: nat, j: nat)
    requires i <= j <= |s| && SpaceBetween(s, 0, i) && SpaceBetween(s, j, |s|)
    requires i == j || (!IsSpace(s[i]) && !IsSpace(s[j - 1]))
    ensures Trim(s) == s[i..j]
  {
    if i < j {
      TrimStartIndexUnique(s, i);
      TrimEndIndexUnique(s, j);
    } else {
      assert SpaceBetween(s, 0, |s|) by {
        forall k | 0 <= k < |s| ensures IsSpace(s[k]) {
          if k >= i { assert k >= j; }
        }
      }
      TrimStartIndexUnique(s, |s|);
    }
  }

  /** A string is left empty by `trim` exactly when it is all white space. */
  lemma TrimEmptyIffBlank(s: string)
    ensures Trim(s) == [] <==> AllSpace(s)
  {
    var i := TrimStartIndex(s);
    if AllSpace(s) {
      TrimStartIndexUnique(s, |s|);
    } else if i < |s| {
      assert Trim(s)[0] == s[i];
    }
  }

  /** A string that neither starts nor ends with white space is its own trim. */
  lemma TrimOfTrimmed(s: string)
    requires s == [] || (!IsSpace(s[0]) && !IsSpace(s[|s| - 1]))
    ensures Trim(s) == s
  {
    assert s[0..|s|] == s;
    TrimSlice(s, 0, |s|);
  }

  /** Trimming twice trims no more than trimming once. */
  lemma TrimIdempotent(s: string)
    ensures Trim(Trim(s)) == Trim(s)
  {
    TrimOfTrimmed(Trim(s));
  }

  function LowerChar(c: char): char {
    if 'A' <= c <= 'Z' then (c as int + 32) as char else c
  }

  function UpperChar(c: char): char {
    if 'a' <= c <= 'z' then (c as int - 32) as char else c
  }

  lemma LowerCharSpace(c: char)
    ensures IsSpace(LowerChar(c)) == IsSpace(c)
  {
  }

  /** `toLowerCase`, for the ASCII letters. */
  function Lower(s: string): (r: string)
    ensures |r| == |s|
    ensures forall i :: 0 <= i < |s| ==> r[i] == LowerChar(s[i])
  {
    seq(|s|, i requires 0 <= i < |s| => LowerChar(s[i]))
  }

  /** Lower-casing does not change which characters are white space, so it
      commutes with `trim`. */
  lemma LowerTrimCommute(s: string)
    ensures Lower(Trim(s)) == Trim(Lower(s))
  {
    var ls := Lower(s);
    forall k | 0 <= k < |s| ensures IsSpace(ls[k]) == IsSpace(s[k]) {
      LowerCharSpace(s[k]);
    }
    var i, j := TrimStartIndex(s), TrimEndIndex(s);
    TrimStartIndexUnique(ls, i);
    TrimEndIndexUnique(ls, j);
    if i < |s| {
      assert Lower(s[i..j]) == ls[i..j];
    }
  }

  /** `toLowerCase` applied twice changes nothing more. */
  lemma LowerIdempotent(s: string)
    ensures Lower(Lower(s)) == Lower(s)
  {
  }

  /** `toUpperCase`, for the ASCII letters. */
  function Upper(s: string): (r: string)
    ensures |r| == |s|
    ensures forall i :: 0 <= i < |s| ==> r[i] == UpperChar(s[i])
  {
    if s == [] then [] else [UpperChar(s[0])] + Upper(s[1..])
  }

  /** `s.split(d)` for a one-character separator `d`: the maximal pieces of
      `s` between separators, always at least one. */
  function Split(s: string, d: char): (r: seq<string>)
    ensures |r| >= 1
    ensures forall i :: 0 <= i < |r| ==> d !in r[i]
  {
    if s == [] then [[]]
    else
      var rest := Split(s[1..], d);
      if s[0] == d then [[]] + rest else [[s[0]] + rest[0]] + rest[1..]
  }

  /** `list.join(d)` for a one-character separator `d`. */
  function Join(ws: seq<string>, d: char): string {
    if ws == [] then []
    else if |ws| == 1 then ws[0]
    else ws[0] + [d] + Join(ws[1..], d)
  }

  /** Joining the pieces of a split puts back the original string. */
  lemma {:induction false} JoinSplit(s: string, d: char)
    ensures Join(Split(s, d), d) == s
  {
    if s != [] {
      var rest := Split(s[1..], d);
      JoinSplit(s[1..], d);
      if s[0] == d {
        assert Split(s, d) == [[]] + rest;
      } else {
        var r := Split(s, d);
        assert r == [[s[0]] + rest[0]] + rest[1..];
        if |rest| == 1 {
          assert Join(r, d) == [s[0]] + rest[0];
        } else {
          assert r[1..] == rest[1..];
          assert Join(rest, d) == rest[0] + [d] + Join(rest[1..], d);
        }
      }
    }
  }

  /** A piece without separators splits into itself. */
  lemma {:induction false} SplitNoSeparator(s: string, d: char)
    requires d !in s
    ensures Split(s, d) == [s]
  {
    if s != [] {
      SplitNoSeparator(s[1..], d);
      assert [s[0]] + s[1..] == s;
    }
  }

  /** A separator-free head followed by a separator comes off as one piece. */
  lemma {:induction false} SplitHead(a: string, b: string, d: char)
    requires d !in a
    ensures Split(a + [d] + b, d) == [a] + Split(b, d)
  {
    if a == [] {
      assert a + [d] + b == [d] + b;
      assert ([d] + b)[1..] == b;
    } else {
      SplitHead(a[1..], b, d);
      var s := a + [d] + b;
      assert s[0] == a[0] && s[1..] == a[1..] + [d] + b;
      assert [a[0]] + a[1..] == a;
    }
  }

  /** Splitting a join of separator-free pieces gives back the pieces. */
  lemma {:induction false} SplitJoin(ws: seq<string>, d: char)
    requires |ws| >= 1
    requires forall i :: 0 <= i < |ws| ==> d !in ws[i]
    ensures Split(Join(ws, d), d) == ws
  {
    if |ws| == 1 {
      SplitNoSeparator(ws[0], d);
    } else {
      SplitJoin(ws[1..], d);
      SplitHead(ws[0], Join(ws[1..], d), d);
    }
  }

  /** Whether `pat` occurs in `s` at position `i`. */
  predicate OccursAt(s: string, pat: string, i: int) {
    0 <= i && i + |pat| <= |s| && s[i..i + |pat|] == pat
  }

  predicate Contains(s: string, pat: string) {
    exists i :: 0 <= i <= |s| && OccursAt(s, pat, i)
  }

  /** `s.replace(new RegExp(pat, 'g'), rep)` for a pattern that stands for
      itself: every occurrence of `pat`, scanning left to right without
      overlaps, is replaced by `rep`. */
  function ReplaceAll(s: string, pat: string, rep: string): string
    requires |pat| > 0
    decreases |s|
  {
    if |s| < |pat| then s
    else if s[..|pat|] == pat then rep + ReplaceAll(s[|pat|..], pat, rep)
    else [s[0]] + ReplaceAll(s[1..], pat, rep)
  }

  /** Replacing a pattern that does not occur leaves the string unchanged. */
  lemma {:induction false} ReplaceAllAbsent(s: string, pat: string, rep: string)
    requires |pat| > 0 && !Contains(s, pat)
    ensures ReplaceAll(s, pat, rep) == s
    decreases |s|
  {
    if |s| >= |pat| {
      assert !OccursAt(s, pat, 0);
      assert s[..|pat|] != pat;
      forall i | OccursAt(s[1..], pat, i) ensures false {
        assert s[1..][i..i + |pat|] == s[i + 1..i + 1 + |pat|];
        assert OccursAt(s, pat, i + 1);
      }
      ReplaceAllAbsent(s[1..], pat, rep);
    }
  }

  /** Replacing every occurrence of a pattern with the pattern itself
      changes nothing. */
  lemma {:induction false} ReplaceAllSelf(s: string, pat: string)
    requires |pat| > 0
    ensures ReplaceAll(s, pat, pat) == s
    decreases |s|
  {
    if |s| >= |pat| {
      if s[..|pat|] == pat {
        ReplaceAllSelf(s[|pat|..], pat);
        assert s == s[..|pat|] + s[|pat|..];
      } else {
        ReplaceAllSelf(s[1..], pat);
        assert s == [s[0]] + s[1..];
      }
    }
  }

  /** `list.join(sep)` for a separator of any length. */
  function JoinWith(ws: seq<string>, sep: string): string {
    if ws == [] then []
    else if |ws| == 1 then ws[0]
    else ws[0] + sep + JoinWith(ws[1..], sep)
  }

  /** Two separators side by side somewhere in `s`. */
  predicate DoubleSeparator(s: string, d: char) {
    exists k :: 0 <= k < |s| - 1 && s[k] == d && s[k + 1] == d
  }

  /** The first piece of a split is empty exactly when the string is empty
      or starts with the separator. */
  lemma SplitFirstEmpty(s: string, d: char)
    ensures Split(s, d)[0] == [] <==> s == [] || s[0] == d
  {
  }

  /** A later piece is empty exactly when the string ends with the
      separator or holds two separators side by side. */
  lemma {:induction false} SplitLaterEmpty(s: string, d: char)
    ensures (exists i :: 1 <= i < |Split(s, d)| && Split(s, d)[i] == [])
            <==> (s != [] && s[|s| - 1] == d) || DoubleSeparator(s, d)
  {
    if s != [] {
      var t := s[1..];
      var rest := Split(t, d);
      SplitLaterEmpty(t, d);
      SplitFirstEmpty(t, d);
      var r := Split(s, d);
      if s[0] == d {
        assert r == [[]] + rest;
        assert (exists i :: 1 <= i < |r| && r[i] == []) <==> (exists j :: 0 <= j < |rest| && rest[j] == []) by {
          forall j | 0 <= j < |rest| ensures r[j + 1] == rest[j] { }
        }
        if t != [] && t[0] == d {
          assert s[0] == d && s[1] == d;
        }
        if DoubleSeparator(t, d) {
          var k :| 0 <= k < |t| - 1 && t[k] == d && t[k + 1] == d;
          assert s[k + 1] == d && s[k + 2] == d;
        }
        if DoubleSeparator(s, d) && !(t != [] && t[0] == d) {
          var k :| 0 <= k < |s| - 1 && s[k] == d && s[k + 1] == d;
          assert k >= 1;
          assert t[k - 1] == d && t[k] == d;
        }
      } else {
        assert r == [[s[0]] + rest[0]] + rest[1..];
        assert (exists i :: 1 <= i < |r| && r[i] == []) <==> (exists i :: 1 <= i < |rest| && rest[i] == []) by {
          forall i | 1 <= i < |rest| ensures r[i] == rest[i] { }
        }
        if DoubleSeparator(t, d) {
          var k :| 0 <= k < |t| - 1 && t[k] == d && t[k + 1] == d;
          assert s[k + 1] == d && s[k + 2] == d;
        }
        if DoubleSeparator(s, d) {
          var k :| 0 <= k < |s| - 1 && s[k] == d && s[k + 1] == d;
          assert k >= 1;
          assert t[k - 1] == d && t[k] == d;
        }
      }
    }
  }

  /** The checked text `trim(toLowerCase(s))` is already lower-case. */
  lemma TrimLowerIsLower(s: string)
    ensures Lower(Trim(Lower(s))) == Trim(Lower(s))
  {
    LowerTrimCommute(Lower(s));
    LowerIdempotent(s);
  }

  /** `s.split(sep)` for a non-empty separator string: the pieces between
      the occurrences of `sep` found scanning left to right, always at
      least one. */
  function SplitOn(s: string, sep: string): (r: seq<string>)
    requires |sep| > 0
    ensures |r| >= 1
    decreases |s|
  {
    if |s| < |sep| then [s]
    else if s[..|sep|] == sep then [[]] + SplitOn(s[|sep|..], sep)
    else
      var rest := SplitOn(s[1..], sep);
      [[s[0]] + rest[0]] + rest[1..]
  }

  /** On a one-character separator, `SplitOn` is `Split`. */
  lemma {:induction false} SplitOnChar(s: string, d: char)
    ensures SplitOn(s, [d]) == Split(s, d)
    decreases |s|
  {
    if s != [] {
      SplitOnChar(s[1..], d);
      assert s[..1] == [s[0]];
    }
  }

  /** The pieces of `ws` written one after another. */
  function Concat(ws: seq<string>): string {
    if ws == [] then [] else ws[0] + Concat(ws[1..])
  }

  /** Deleting every occurrence of `sep` leaves the pieces of the split
      written one after another. */
  lemma {:induction false} ReplaceAllSplitOn(s: string, sep: string)
    requires |sep| > 0
    ensures ReplaceAll(s, sep, []) == Concat(SplitOn(s, sep))
    decreases |s|
  {
    if |s| < |sep| {
      assert Concat([s]) == s + Concat([]);
    } else if s[..|sep|] == sep {
      var rest := SplitOn(s[|sep|..], sep);
      ReplaceAllSplitOn(s[|sep|..], sep);
      assert ([[]] + rest)[1..] == rest;
    } else {
      var rest := SplitOn(s[1..], sep);
      ReplaceAllSplitOn(s[1..], sep);
      var r := [[s[0]] + rest[0]] + rest[1..];
      assert r[1..] == rest[1..];
      assert Concat(rest) == rest[0] + Concat(rest[1..]);
    }
  }

  /** A concatenation is all white space exactly when every piece is. */
  lemma {:induction false} AllSpaceConcat(ws: seq<string>)
    ensures AllSpace(Concat(ws)) <==> forall i :: 0 <= i < |ws| ==> AllSpace(ws[i])
  {
    if ws != [] {
      AllSpaceConcat(ws[1..]);
      var c := Concat(ws);
      assert c == ws[0] + Concat(ws[1..]);
      if AllSpace(c) {
        forall i | 0 <= i < |ws| ensures AllSpace(ws[i]) {
          if i == 0 {
            assert forall k :: 0 <= k < |ws[0]| ==> ws[0][k] == c[k];
          } else {
            assert ws[i] == ws[1..][i - 1];
            assert forall k :: 0 <= k < |Concat(ws[1..])| ==> Concat(ws[1..])[k] == c[|ws[0]| + k];
          }
        }
      }
      if forall i :: 0 <= i < |ws| ==> AllSpace(ws[i]) {
        assert forall i :: 0 <= i < |ws[1..]| ==> ws[1..][i] == ws[i + 1];
      }
    }
  }
}

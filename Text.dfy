/** The Python `str` operations the modelled code relies on, over ASCII:
    `isspace`, `strip`, `lower`, `split()`, `in`, `replace`, `startswith`,
    `endswith`, `isalnum`, `isdigit`. */
module Text {

  /** `c.isspace()` restricted to ASCII: tab, line feed, vertical tab, form feed,
      carriage return, the four separators 0x1C..0x1F, and space. */
  predicate IsSpace(c: char) {
    (9 <= c as int <= 13) || (28 <= c as int <= 32)
  }

  predicate IsDigit(c: char) { '0' <= c <= '9' }

  predicate IsAlpha(c: char) { ('a' <= c <= 'z') || ('A' <= c <= 'Z') }

  /** `s.isdigit()`: non-empty and every character a digit. */
  predicate AllDigits(s: string) {
    s != [] && forall i :: 0 <= i < |s| ==> IsDigit(s[i])
  }

  /** `s.isalnum()`: non-empty and every character a letter or a digit. */
  predicate AllAlnum(s: string) {
    s != [] && forall i :: 0 <= i < |s| ==> IsAlpha(s[i]) || IsDigit(s[i])
  }

  predicate StartsWith(s: string, prefix: string) {
    |prefix| <= |s| && s[..|prefix|] == prefix
  }

  predicate EndsWith(s: string, suffix: string) {
    |suffix| <= |s| && s[|s| - |suffix|..] == suffix
  }

  /** `t in s`: `t` occurs as a contiguous substring of `s` (the empty string
      occurs in every string). */
  predicate Contains(s: string, t: string)
    decreases |s|
  {
    StartsWith(s, t) || (s != [] && Contains(s[1..], t))
  }

  /** `t` occurs in `s` starting at index `i`. */
  predicate OccursAt(s: string, t: string, i: int) {
    0 <= i && i + |t| <= |s| && s[i..i + |t|] == t
  }

  /** `Contains` is the usual "some slice of `s` equals `t`". */
  lemma {:induction false} ContainsAt(s: string, t: string)
    ensures Contains(s, t) <==> exists i :: OccursAt(s, t, i)
  {
    if s == [] {
      if StartsWith(s, t) {
        assert OccursAt(s, t, 0);
      }
      if exists i :: OccursAt(s, t, i) {
        var i :| OccursAt(s, t, i);
        assert StartsWith(s, t);
      }
    } else {
      ContainsAt(s[1..], t);
      if StartsWith(s, t) {
        assert OccursAt(s, t, 0);
      } else if Contains(s[1..], t) {
        var i :| OccursAt(s[1..], t, i);
        assert s[1..][i..i + |t|] == s[i + 1..i + 1 + |t|];
        assert OccursAt(s, t, i + 1);
      }
      if exists i :: OccursAt(s, t, i) {
        var i :| OccursAt(s, t, i);
        if i > 0 {
          assert s[1..][i - 1..i - 1 + |t|] == s[i..i + |t|];
          assert OccursAt(s[1..], t, i - 1);
        } else {
          assert StartsWith(s, t);
        }
      }
    }
  }

  /** Every character of a contained pattern occurs in the string; so a string
      cannot contain a pattern one of whose characters it lacks. */
  lemma ContainedCharsOccur(s: string, t: string, k: int)
    requires 0 <= k < |t|
    ensures Contains(s, t) ==> t[k] in s
  {
    ContainsAt(s, t);
    if Contains(s, t) {
      var i :| OccursAt(s, t, i);
      assert s[i..i + |t|][k] == t[k];
      assert s[i + k] == t[k];
    }
  }

  /** A string only contains patterns no longer than itself. */
  lemma ContainsLength(s: string, t: string)
    ensures Contains(s, t) ==> |t| <= |s|
  {
    ContainsAt(s, t);
  }

  /** Two strings where the shorter holds a character the longer lacks do not
      contain one another. */
  lemma NeitherContains(s: string, t: string, k: int)
    requires |s| < |t| && 0 <= k < |s| && s[k] !in t
    ensures !Contains(s, t) && !Contains(t, s)
  {
    ContainsLength(s, t);
    ContainedCharsOccur(t, s, k);
  }

  /** Every string contains itself. */
  lemma ContainsSelf(s: string)
    ensures Contains(s, s)
  {
  }

  /** Strip the characters satisfying `p` from both ends (`str.strip(chars)`). */
  function StripBy(s: string, p: char -> bool): (r: string)
  {
    RStripBy(LStripBy(s, p), p)
  }

  function LStripBy(s: string, p: char -> bool): (r: string)
    decreases |s|
  {
    if s != [] && p(s[0]) then LStripBy(s[1..], p) else s
  }

  function RStripBy(s: string, p: char -> bool): (r: string)
    decreases |s|
  {
    if s != [] && p(s[|s| - 1]) then RStripBy(s[..|s| - 1], p) else s
  }

  /** `s.strip()`. */
  function Strip(s: string): string {
    StripBy(s, IsSpace)
  }

  predicate IsQuote(c: char) { c == '"' || c == '\'' }

  /** `s.strip('"\'')`: only quote characters are removed, not whitespace. */
  function StripQuotes(s: string): string {
    StripBy(s, IsQuote)
  }

  /** What `LStripBy` keeps is a suffix of its input that does not start with a
      stripped character. */
  lemma {:induction false} LStripShape(s: string, p: char -> bool)
    ensures var r := LStripBy(s, p);
      |r| <= |s| && r == s[|s| - |r|..] && (r != [] ==> !p(r[0])) &&
      forall i :: 0 <= i < |s| - |r| ==> p(s[i])
  {
    if s != [] && p(s[0]) {
      var t := s[1..];
      LStripShape(t, p);
      var r := LStripBy(t, p);
      assert LStripBy(s, p) == r;
      assert t[|t| - |r|..] == s[|s| - |r|..];
      forall i | 0 <= i < |s| - |r| ensures p(s[i]) {
        if i > 0 {
          assert s[i] == t[i - 1];
        }
      }
    }
  }

  /** What `RStripBy` keeps is a prefix of its input that does not end with a
      stripped character. */
  lemma {:induction false} RStripShape(s: string, p: char -> bool)
    ensures var r := RStripBy(s, p);
      |r| <= |s| && r == s[..|r|] && (r != [] ==> !p(r[|r| - 1])) &&
      forall i :: |r| <= i < |s| ==> p(s[i])
  {
    if s != [] && p(s[|s| - 1]) {
      RStripShape(s[..|s| - 1], p);
    }
  }

  lemma {:induction false} LStripNoop(s: string, p: char -> bool)
    requires s == [] || !p(s[0])
    ensures LStripBy(s, p) == s
  {
  }

  lemma {:induction false} RStripNoop(s: string, p: char -> bool)
    requires s == [] || !p(s[|s| - 1])
    ensures RStripBy(s, p) == s
  {
  }

  /** A string with no whitespace at either end is its own `strip()`. */
  lemma StripNoop(s: string)
    requires s != [] && !IsSpace(s[0]) && !IsSpace(s[|s| - 1])
    ensures Strip(s) == s
  {
    LStripNoop(s, IsSpace);
    RStripNoop(s, IsSpace);
  }

  /** Stripping is a contiguous slice of the input with no stripped character at
      either end, and everything removed satisfies `p`; stripping twice is
      stripping once. */
  lemma {:induction false} StripShape(s: string, p: char -> bool)
    ensures exists i, j ::
              && 0 <= i <= j <= |s| && StripBy(s, p) == s[i..j]
              && (forall k :: 0 <= k < i ==> p(s[k]))
              && (forall k :: j <= k < |s| ==> p(s[k]))
    ensures var r := StripBy(s, p); r != [] ==> !p(r[0]) && !p(r[|r| - 1])
    ensures StripBy(StripBy(s, p), p) == StripBy(s, p)
  {
    var l := LStripBy(s, p);
    LStripShape(s, p);
    RStripShape(l, p);
    var r := RStripBy(l, p);
    var i := |s| - |l|;
    var j := i + |r|;
    assert r == s[i..j];
    forall k | j <= k < |s| ensures p(s[k]) {
      assert s[k] == l[k - i];
    }
    if r != [] {
      assert r[0] == l[0];
      LStripNoop(r, p);
      RStripNoop(r, p);
    }
  }

  /** `s.strip()` is empty exactly when every character of `s` is whitespace. */
  lemma StripEmpty(s: string)
    ensures Strip(s) == [] <==> forall k :: 0 <= k < |s| ==> IsSpace(s[k])
  {
    StripShape(s, IsSpace);
    if forall k :: 0 <= k < |s| ==> IsSpace(s[k]) {
      LStripShape(s, IsSpace);
    }
  }

  function LowerChar(c: char): char {
    if 'A' <= c <= 'Z' then (c as int + 32) as char else c
  }

  /** `s.lower()`. */
  function Lower(s: string): (r: string)
    ensures |r| == |s|
    ensures forall i :: 0 <= i < |s| ==> r[i] == LowerChar(s[i])
  {
    seq(|s|, i requires 0 <= i < |s| => LowerChar(s[i]))
  }

  /** Length of the run of non-whitespace characters at the head of `s`. */
  function WordLength(s: string): (n: nat)
    ensures n <= |s|
    ensures forall i :: 0 <= i < n ==> !IsSpace(s[i])
    ensures n < |s| ==> IsSpace(s[n])
  {
    if s == [] || IsSpace(s[0]) then 0 else 1 + WordLength(s[1..])
  }

  /** `s.split()`: the maximal runs of non-whitespace characters, in order. */
  function Split(s: string): seq<string>
    decreases |s|
  {
    if s == [] then []
    else if IsSpace(s[0]) then Split(s[1..])
    else
      var n := WordLength(s);
      [s[..n]] + Split(s[n..])
  }

  function Concat(ws: seq<string>): string {
    if ws == [] then [] else ws[0] + Concat(ws[1..])
  }

  /** `s` with every whitespace character deleted. */
  function RemoveSpaces(s: string): string {
    if s == [] then [] else (if IsSpace(s[0]) then [] else [s[0]]) + RemoveSpaces(s[1..])
  }

  lemma {:induction false} RemoveSpacesAppend(a: string, b: string)
    ensures RemoveSpaces(a + b) == RemoveSpaces(a) + RemoveSpaces(b)
  {
    if a != [] {
      var h := if IsSpace(a[0]) then [] else [a[0]];
      assert (a + b)[0] == a[0];
      assert (a + b)[1..] == a[1..] + b;
      RemoveSpacesAppend(a[1..], b);
      calc {
        RemoveSpaces(a + b);
        h + RemoveSpaces(a[1..] + b);
        h + (RemoveSpaces(a[1..]) + RemoveSpaces(b));
        (h + RemoveSpaces(a[1..])) + RemoveSpaces(b);
      }
    } else {
      assert a + b == b;
    }
  }

  lemma {:induction false} RemoveSpacesNone(w: string)
    requires forall i :: 0 <= i < |w| ==> !IsSpace(w[i])
    ensures RemoveSpaces(w) == w
  {
    if w != [] {
      RemoveSpacesNone(w[1..]);
    }
  }

  /** `split()` yields non-empty whitespace-free words which, glued together,
      are exactly the non-whitespace characters of `s`. */
  lemma {:induction false} SplitWords(s: string)
    ensures forall w :: w in Split(s) ==> w != [] && forall i :: 0 <= i < |w| ==> !IsSpace(w[i])
    ensures Concat(Split(s)) == RemoveSpaces(s)
    decreases |s|
  {
    if s == [] {
    } else if IsSpace(s[0]) {
      SplitWords(s[1..]);
    } else {
      var n := WordLength(s);
      SplitWords(s[n..]);
      assert s == s[..n] + s[n..];
      RemoveSpacesAppend(s[..n], s[n..]);
      RemoveSpacesNone(s[..n]);
      assert Split(s)[1..] == Split(s[n..]);
    }
  }

  /** A leading word followed by whitespace or nothing is the first token. */
  lemma SplitCons(w: string, rest: string)
    requires w != [] && forall k :: 0 <= k < |w| ==> !IsSpace(w[k])
    requires rest == [] || IsSpace(rest[0])
    ensures Split(w + rest) == [w] + Split(rest)
  {
    var s := w + rest;
    assert forall k :: 0 <= k < |w| ==> s[k] == w[k];
    assert rest != [] ==> s[|w|] == rest[0];
    assert WordLength(s) == |w|;
    assert s[..|w|] == w && s[|w|..] == rest;
  }

  /** A word delimited by whitespace or the ends of the string is one of its
      tokens. */
  lemma {:induction false} WordInSplit(a: string, w: string, b: string)
    requires w != [] && forall k :: 0 <= k < |w| ==> !IsSpace(w[k])
    requires a == [] || IsSpace(a[|a| - 1])
    requires b == [] || IsSpace(b[0])
    ensures w in Split(a + w + b)
    decreases |a|
  {
    var s := a + w + b;
    if a == [] {
      assert s == w + b;
      SplitCons(w, b);
    } else if IsSpace(a[0]) {
      assert s[1..] == a[1..] + w + b;
      WordInSplit(a[1..], w, b);
    } else {
      var n := WordLength(s);
      assert s[|a| - 1] == a[|a| - 1];
      assert forall k :: 0 <= k < |a| ==> s[k] == a[k];
      assert 0 < n < |a|;
      assert s[n..] == a[n..] + w + b;
      WordInSplit(a[n..], w, b);
    }
  }

  /** `rep` between every two characters and at both ends: what Python's
      `s.replace("", new)` produces. */
  function Interleave(s: string, rep: string): string {
    if s == [] then rep else rep + [s[0]] + Interleave(s[1..], rep)
  }

  /** `s.replace(old, new)`: replace every non-overlapping occurrence of `pat`,
      scanning left to right. */
  function ReplaceAll(s: string, pat: string, rep: string): string
    decreases |s|
  {
    if pat == [] then Interleave(s, rep)
    else if s == [] then []
    else if StartsWith(s, pat) then rep + ReplaceAll(s[|pat|..], pat, rep)
    else [s[0]] + ReplaceAll(s[1..], pat, rep)
  }

  /** Replacing a non-empty pattern that does not occur changes nothing. */
  lemma {:induction false} ReplaceAbsent(s: string, pat: string, rep: string)
    requires pat != [] && !Contains(s, pat)
    ensures ReplaceAll(s, pat, rep) == s
  {
    if s != [] {
      ReplaceAbsent(s[1..], pat, rep);
    }
  }

  /** Replacing a non-empty pattern by itself changes nothing. */
  lemma {:induction false} ReplaceSame(s: string, pat: string)
    requires pat != []
    ensures ReplaceAll(s, pat, pat) == s
  {
    if s != [] {
      if StartsWith(s, pat) {
        ReplaceSame(s[|pat|..], pat);
        assert s == pat + s[|pat|..];
      } else {
        ReplaceSame(s[1..], pat);
      }
    }
  }

  /** A character that cannot begin the pattern is copied by `replace`. */
  lemma ReplaceCons(c: char, t: string, pat: string, rep: string)
    requires pat != [] && c != pat[0]
    ensures ReplaceAll([c] + t, pat, rep) == [c] + ReplaceAll(t, pat, rep)
  {
    var s := [c] + t;
    assert s[0] == c && s[1..] == t;
    assert !StartsWith(s, pat) by {
      if |pat| <= |s| {
        assert s[..|pat|][0] == c;
      }
    }
  }

  /** A prefix none of whose characters can begin the pattern is copied
      unchanged by `replace`. */
  lemma {:induction false} ReplaceSkip(a: string, b: string, pat: string, rep: string)
    requires pat != [] && pat[0] !in a
    ensures ReplaceAll(a + b, pat, rep) == a + ReplaceAll(b, pat, rep)
  {
    if a != [] {
      assert a + b == [a[0]] + (a[1..] + b);
      ReplaceCons(a[0], a[1..] + b, pat, rep);
      ReplaceSkip(a[1..], b, pat, rep);
      assert a == [a[0]] + a[1..];
    } else {
      assert a + b == b;
    }
  }

  /** `s` with every `c` turned into `d`. */
  function Substitute(s: string, c: char, d: char): (r: string)
    ensures |r| == |s|
    ensures forall i :: 0 <= i < |s| ==> r[i] == if s[i] == c then d else s[i]
  {
    seq(|s|, i requires 0 <= i < |s| => if s[i] == c then d else s[i])
  }

  /** Replacing a one-character pattern substitutes that character. */
  lemma {:induction false} ReplaceChar(s: string, c: char, d: char)
    ensures ReplaceAll(s, [c], [d]) == Substitute(s, c, d)
  {
    if s != [] {
      ReplaceChar(s[1..], c, d);
      var r := Substitute(s, c, d);
      assert r == [r[0]] + Substitute(s[1..], c, d);
      assert StartsWith(s, [c]) <==> s[0] == c;
    }
  }
}

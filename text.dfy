/** Character classes and string helpers shared by the pipeline: Python's
    notion of whitespace, `str.split()` with no argument and `sep.join(...)`. */
module Text {

  /** Python's whitespace set: what `str.isspace`, `str.split()`, `str.strip()`
      and the `\s` class of a `str` regular expression accept. */
  predicate IsSpace(c: char) {
    || ('\t' <= c <= '\r')
    || ('\U{1C}' <= c <= ' ')
    || c == '\U{85}' || c == '\U{A0}' || c == '\U{1680}'
    || ('\U{2000}' <= c <= '\U{200A}')
    || c == '\U{2028}' || c == '\U{2029}' || c == '\U{202F}' || c == '\U{205F}' || c == '\U{3000}'
  }

  predicate NotSpace(c: char) { !IsSpace(c) }

  predicate IsAsciiChar(c: char) { c as int < 128 }

  predicate IsAscii(s: string) { forall i :: 0 <= i < |s| ==> IsAsciiChar(s[i]) }

  predicate IsAsciiUpper(c: char) { 'A' <= c <= 'Z' }

  predicate IsAsciiLower(c: char) { 'a' <= c <= 'z' }

  predicate IsAsciiDigit(c: char) { '0' <= c <= '9' }

  predicate NoAsciiUpper(s: string) { forall i :: 0 <= i < |s| ==> !IsAsciiUpper(s[i]) }

  predicate HasNoSpace(w: string) { forall i :: 0 <= i < |w| ==> !IsSpace(w[i]) }

  /** A word as `str.split()` produces it: non-empty, without whitespace. */
  predicate IsWord(w: string) { w != [] && HasNoSpace(w) }

  predicate AllWords(ws: seq<string>) { forall i :: 0 <= i < |ws| ==> IsWord(ws[i]) }

  /** Length of the longest prefix of `s` whose characters all satisfy `p`. */
  function RunLen(s: string, p: char -> bool): (n: nat)
    ensures n <= |s|
    ensures forall i :: 0 <= i < n ==> p(s[i])
    ensures n < |s| ==> !p(s[n])
  {
    if s == [] || !p(s[0]) then 0 else 1 + RunLen(s[1..], p)
  }

  /** The run length is determined by its two defining properties. */
  lemma {:induction false} RunLenUnique(s: string, p: char -> bool, n: nat)
    requires n <= |s|
    requires forall i :: 0 <= i < n ==> p(s[i])
    requires n < |s| ==> !p(s[n])
    ensures RunLen(s, p) == n
  {
    if n > 0 {
      RunLenUnique(s[1..], p, n - 1);
    }
  }

  /** Python's `str.split()`: the maximal runs of non-whitespace characters. */
  function Split(s: string): seq<string>
    decreases |s|
  {
    if s == [] then []
    else if IsSpace(s[0]) then Split(s[1..])
    else
      var n := RunLen(s, NotSpace);
      [s[..n]] + Split(s[n..])
  }

  /** Every element `str.split()` returns is a word. */
  lemma {:induction false} SplitWords(s: string)
    ensures AllWords(Split(s))
    decreases |s|
  {
    if s != [] {
      if IsSpace(s[0]) {
        SplitWords(s[1..]);
      } else {
        var n := RunLen(s, NotSpace);
        SplitWords(s[n..]);
        assert IsWord(s[..n]);
      }
    }
  }

  /** Leading whitespace does not change the words. */
  lemma {:induction false} SplitSkipsSpaces(s: string, k: nat)
    requires k <= |s| && forall i :: 0 <= i < k ==> IsSpace(s[i])
    ensures Split(s) == Split(s[k..])
  {
    if k > 0 {
      SplitSkipsSpaces(s[1..], k - 1);
      assert s[1..][k - 1..] == s[k..];
    }
  }

  /** A maximal non-whitespace run at the front is the first word. */
  lemma SplitFirstWord(s: string, n: nat)
    requires 0 < n <= |s| && forall i :: 0 <= i < n ==> !IsSpace(s[i])
    requires n < |s| ==> IsSpace(s[n])
    ensures Split(s) == [s[..n]] + Split(s[n..])
  {
    RunLenUnique(s, NotSpace, n);
  }

  /** Python's `sep.join(ws)`. */
  function Join(sep: string, ws: seq<string>): string {
    if ws == [] then []
    else if |ws| == 1 then ws[0]
    else ws[0] + sep + Join(sep, ws[1..])
  }

  /** Python's `s.endswith(suffix)`. */
  predicate EndsWith(s: string, suffix: string) {
    |suffix| <= |s| && s[|s| - |suffix|..] == suffix
  }

  /** A string in the shape `' '.join(s.split())` produces: no whitespace
      other than the plain space, none at either end, never two in a row. */
  predicate Tidy(s: string) {
    && (forall i :: 0 <= i < |s| && IsSpace(s[i]) ==> s[i] == ' ')
    && (s != [] ==> !IsSpace(s[0]) && !IsSpace(s[|s| - 1]))
    && (forall i :: 0 <= i < |s| - 1 && IsSpace(s[i]) ==> !IsSpace(s[i + 1]))
  }

  predicate AllChars(s: string, p: char -> bool) { forall i :: 0 <= i < |s| ==> p(s[i]) }

  /** Every word `str.split()` returns is made of characters of its input. */
  lemma {:induction false} SplitKeepsChars(s: string, p: char -> bool)
    requires AllChars(s, p)
    ensures forall i :: 0 <= i < |Split(s)| ==> AllChars(Split(s)[i], p)
    decreases |s|
  {
    if s != [] {
      if IsSpace(s[0]) {
        SplitKeepsChars(s[1..], p);
      } else {
        var n := RunLen(s, NotSpace);
        SplitKeepsChars(s[n..], p);
      }
    }
  }

  /** `sep.join(ws)` is made of the characters of `sep` and of the words. */
  lemma {:induction false} JoinKeepsChars(sep: string, ws: seq<string>, p: char -> bool)
    requires AllChars(sep, p)
    requires forall i :: 0 <= i < |ws| ==> AllChars(ws[i], p)
    ensures AllChars(Join(sep, ws), p)
  {
    if |ws| > 1 {
      JoinKeepsChars(sep, ws[1..], p);
      var r := Join(sep, ws[1..]);
      assert Join(sep, ws) == ws[0] + sep + r;
      assert AllChars(ws[0], p);
    }
  }

  /** The first and last characters of a space-joined list of words. */
  lemma {:induction false} JoinEnds(ws: seq<string>)
    requires ws != [] && forall i :: 0 <= i < |ws| ==> ws[i] != []
    ensures Join(" ", ws) != []
    ensures Join(" ", ws)[0] == ws[0][0]
    ensures Join(" ", ws)[|Join(" ", ws)| - 1] == ws[|ws| - 1][|ws[|ws| - 1]| - 1]
  {
    if |ws| > 1 {
      var w, j := ws[0], Join(" ", ws[1..]);
      assert w != [] && ws[1..][0] != [];
      JoinEnds(ws[1..]);
      assert Join(" ", ws) == (w + " ") + j;
      ConcatEnds(w + " ", j);
      assert ws[1..][|ws| - 2] == ws[|ws| - 1];
    }
  }

  /** The first and last characters of a concatenation. */
  lemma ConcatEnds(a: string, b: string)
    requires a != [] && b != []
    ensures (a + b)[0] == a[0]
    ensures (a + b)[|a + b| - 1] == b[|b| - 1]
  {
  }

  /** Splitting words joined with single spaces gives the words back. */
  lemma {:induction false} SplitJoin(ws: seq<string>)
    requires AllWords(ws)
    ensures Split(Join(" ", ws)) == ws
  {
    if ws == [] {
    } else if |ws| == 1 {
      var w := ws[0];
      assert IsWord(w);
      SplitFirstWord(w, |w|);
      assert w[..|w|] == w && w[|w|..] == [];
    } else {
      var w, j := ws[0], Join(" ", ws[1..]);
      var s := w + " " + j;
      assert Join(" ", ws) == s;
      assert IsWord(w);
      SplitFirstWord(s, |w|);
      assert s[..|w|] == w;
      SplitSkipsSpaces(s[|w|..], 1);
      assert s[|w|..][1..] == j;
      SplitJoin(ws[1..]);
    }
  }

  /** Words joined with single spaces are tidy. */
  lemma {:induction false} JoinTidy(ws: seq<string>)
    requires AllWords(ws)
    ensures Tidy(Join(" ", ws))
  {
    if |ws| == 1 {
      assert IsWord(ws[0]);
    } else if |ws| > 1 {
      var w, j := ws[0], Join(" ", ws[1..]);
      JoinTidy(ws[1..]);
      JoinEnds(ws[1..]);
      assert IsWord(w) && IsWord(ws[1]);
      var s := w + " " + j;
      assert Join(" ", ws) == s;
      assert forall i :: 0 <= i < |w| ==> s[i] == w[i];
      forall i | 0 <= i < |s| && IsSpace(s[i])
        ensures s[i] == ' '
        ensures i < |s| - 1 ==> !IsSpace(s[i + 1])
      {
        if i == |w| {
          assert s[i + 1] == j[0];
        } else if i > |w| {
          assert s[i] == j[i - |w| - 1];
          if i < |s| - 1 {
            assert s[i + 1] == j[i - |w|];
          }
        }
      }
      assert s[|s| - 1] == j[|j| - 1];
    }
  }

  /** A tidy string is exactly its words joined with single spaces. */
  lemma {:induction false} TidyIsJoinOfSplit(s: string)
    requires Tidy(s)
    ensures Join(" ", Split(s)) == s
    decreases |s|
  {
    if s != [] {
      var n := RunLen(s, NotSpace);
      if n == |s| {
        TidyOneWord(s);
      } else {
        assert s[n] == ' ' && 0 < n < |s| - 1;
        TidySuffix(s, n + 1);
        TidyIsJoinOfSplit(s[n + 1..]);
        TidyMoreWords(s, n);
      }
    }
  }

  lemma TidyOneWord(s: string)
    requires Tidy(s) && s != [] && RunLen(s, NotSpace) == |s|
    ensures Join(" ", Split(s)) == s
  {
    assert !IsSpace(s[0]);
    SplitFirstWord(s, |s|);
    assert s[..|s|] == s && s[|s|..] == [];
  }

  lemma TidyMoreWords(s: string, n: nat)
    requires Tidy(s) && 0 < n < |s| - 1 && n == RunLen(s, NotSpace) && s[n] == ' '
    requires Join(" ", Split(s[n + 1..])) == s[n + 1..]
    ensures Join(" ", Split(s)) == s
  {
    var rest := s[n + 1..];
    assert !IsSpace(s[0]);
    SplitFirstWord(s, n);
    SplitSkipsSpaces(s[n..], 1);
    assert s[n..][1..] == rest;
    assert !IsSpace(rest[0]);
    SplitNonEmpty(rest);
    JoinCons(s[..n], Split(rest));
    SliceAroundSpace(s, n);
  }

  /** A string with a word in front has at least one word. */
  lemma SplitNonEmpty(s: string)
    requires s != [] && !IsSpace(s[0])
    ensures Split(s) != []
  {
  }

  /** A string is the part before a space, the space and the part after. */
  lemma SliceAroundSpace(s: string, n: nat)
    requires n < |s| && s[n] == ' '
    ensures s == s[..n] + " " + s[n + 1..]
  {
  }

  /** A suffix of a tidy string that starts after a space is tidy. */
  lemma TidySuffix(s: string, m: nat)
    requires Tidy(s) && 0 < m < |s| && IsSpace(s[m - 1])
    ensures Tidy(s[m..])
  {
    var rest := s[m..];
    forall i | 0 <= i < |rest| - 1 && IsSpace(rest[i]) ensures !IsSpace(rest[i + 1]) {
      assert rest[i] == s[m + i] && rest[i + 1] == s[m + i + 1];
    }
  }

  /** How a concatenation looks from its first character. */
  lemma ConsConcat(p: string, r: string)
    requires p != []
    ensures (p + r)[0] == p[0]
    ensures (p + r)[1..] == p[1..] + r
    ensures [p[0]] + (p[1..] + r) == p + r
  {
    assert p == [p[0]] + p[1..];
  }

  /** Joining a word in front of a non-empty list. */
  lemma JoinCons(w: string, ws: seq<string>)
    requires ws != []
    ensures Join(" ", [w] + ws) == w + " " + Join(" ", ws)
  {
    assert ([w] + ws)[1..] == ws;
  }
}

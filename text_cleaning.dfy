/** `NLPProcessor.clean_text`: six string rewrites applied in a fixed order.
    Each regular-expression substitution is written out as the left-to-right
    scan Python's `re.sub` performs with that pattern. */
module TextCleaning {
  import opened Text

  /** The two Unicode tables `clean_text` consults for non-ASCII characters:
      the full lowercase mapping of `str.lower` and the compatibility
      decomposition (NFKD). ASCII characters are handled directly: `lower`
      maps 'A'..'Z' to 'a'..'z', and NFKD leaves every ASCII character alone. */
  datatype CharTables = CharTables(lowerTable: char -> string, decompose: char -> string)

  predicate NotAsciiUpper(c: char) { !IsAsciiUpper(c) }

  /** Whatever the multiset-shrinking steps keep satisfies any property every
      input character had. */
  lemma {:induction false} SubMultisetKeeps(r: string, s: string, p: char -> bool)
    requires multiset(r) <= multiset(s)
    requires AllChars(s, p)
    ensures AllChars(r, p)
  {
    forall i | 0 <= i < |r| ensures p(r[i]) {
      assert r[i] in multiset(r);
      assert r[i] in multiset(s);
      var j :| 0 <= j < |s| && s[j] == r[i];
    }
  }

  // ---------------------------------------------------------------------
  // Step 1: text.lower()

  function LowerChar(t: CharTables, c: char): string {
    if IsAsciiUpper(c) then [(c as int + 32) as char]
    else if IsAsciiChar(c) then [c]
    else t.lowerTable(c)
  }

  /** `str.lower()`: ASCII capitals become small letters, other ASCII stays,
      and a non-ASCII character becomes its (possibly longer) lowercase. */
  function Lower(t: CharTables, s: string): (r: string)
    ensures IsAscii(s) ==> |r| == |s| && IsAscii(r) && NoAsciiUpper(r)
    ensures IsAscii(s) ==> forall i :: 0 <= i < |s| ==>
      r[i] == if IsAsciiUpper(s[i]) then (s[i] as int + 32) as char else s[i]
    ensures IsAscii(s) && NoAsciiUpper(s) ==> r == s
    ensures (forall c :: NoAsciiUpper(t.lowerTable(c))) ==> NoAsciiUpper(r)
  {
    if s == [] then [] else LowerChar(t, s[0]) + Lower(t, s[1..])
  }

  // ---------------------------------------------------------------------
  // Step 2: unicodedata.normalize('NFKD', text).encode('ASCII', 'ignore').decode('ASCII')

  /** `.encode('ASCII', 'ignore')`: drop every non-ASCII character. */
  function AsciiPart(s: string): (r: string)
    ensures IsAscii(r)
    ensures multiset(r) <= multiset(s)
    ensures IsAscii(s) ==> r == s
  {
    if s == [] then []
    else
      assert s == [s[0]] + s[1..];
      if IsAsciiChar(s[0]) then [s[0]] + AsciiPart(s[1..]) else AsciiPart(s[1..])
  }

  function FoldChar(t: CharTables, c: char): string {
    if IsAsciiChar(c) then [c] else AsciiPart(t.decompose(c))
  }

  /** NFKD followed by the ASCII filter, one character at a time. Canonical
      reordering only moves combining marks, which are all non-ASCII and are
      dropped, so decomposing character by character gives the same result. */
  function StripAccents(t: CharTables, s: string): (r: string)
    ensures IsAscii(r)
    ensures IsAscii(s) ==> r == s
    ensures NoAsciiUpper(s) && (forall c :: NoAsciiUpper(t.decompose(c))) ==> NoAsciiUpper(r)
  {
    if s == [] then []
    else
      var head := FoldChar(t, s[0]);
      assert !IsAsciiChar(s[0]) ==> AllChars(t.decompose(s[0]), NotAsciiUpper) ==> AllChars(head, NotAsciiUpper) by {
        if !IsAsciiChar(s[0]) && AllChars(t.decompose(s[0]), NotAsciiUpper) {
          SubMultisetKeeps(head, t.decompose(s[0]), NotAsciiUpper);
        }
      }
      head + StripAccents(t, s[1..])
  }

  // The first two steps work character by character: a concatenation maps
  // to the concatenation of the results, and one character maps as
  // `LowerChar` and `FoldChar` say.

  lemma {:induction false} LowerCharwise(t: CharTables, c: char, a: string, b: string)
    ensures Lower(t, [c]) == LowerChar(t, c)
    ensures Lower(t, a + b) == Lower(t, a) + Lower(t, b)
  {
    assert [c][1..] == [];
    if a == [] {
      assert a + b == b;
    } else {
      assert (a + b)[1..] == a[1..] + b;
      LowerCharwise(t, c, a[1..], b);
      assert LowerChar(t, a[0]) + (Lower(t, a[1..]) + Lower(t, b))
          == (LowerChar(t, a[0]) + Lower(t, a[1..])) + Lower(t, b);
    }
  }

  /** The ASCII filter keeps the ASCII characters in their order. */
  lemma {:induction false} AsciiPartAppend(a: string, b: string)
    ensures AsciiPart(a + b) == AsciiPart(a) + AsciiPart(b)
  {
    if a == [] {
      assert a + b == b;
    } else {
      assert (a + b)[1..] == a[1..] + b;
      AsciiPartAppend(a[1..], b);
      if IsAsciiChar(a[0]) {
        assert [a[0]] + (AsciiPart(a[1..]) + AsciiPart(b)) == ([a[0]] + AsciiPart(a[1..])) + AsciiPart(b);
      }
    }
  }

  /** The ASCII filter keeps every ASCII character as often as it occurs. */
  lemma {:induction false} AsciiPartCounts(s: string)
    ensures forall c :: IsAsciiChar(c) ==> multiset(AsciiPart(s))[c] == multiset(s)[c]
  {
    if s != [] {
      AsciiPartCounts(s[1..]);
      assert s == [s[0]] + s[1..];
      if IsAsciiChar(s[0]) {
        assert AsciiPart(s) == [s[0]] + AsciiPart(s[1..]);
      }
    }
  }

  lemma {:induction false} StripAccentsCharwise(t: CharTables, c: char, a: string, b: string)
    ensures StripAccents(t, [c]) == FoldChar(t, c)
    ensures StripAccents(t, a + b) == StripAccents(t, a) + StripAccents(t, b)
  {
    assert [c][1..] == [];
    assert FoldChar(t, c) + [] == FoldChar(t, c);
    if a == [] {
      assert a + b == b;
    } else {
      assert (a + b)[1..] == a[1..] + b;
      StripAccentsCharwise(t, c, a[1..], b);
      assert FoldChar(t, a[0]) + (StripAccents(t, a[1..]) + StripAccents(t, b))
          == (FoldChar(t, a[0]) + StripAccents(t, a[1..])) + StripAccents(t, b);
    }
  }

  /** Inside any text, an ASCII character survives accent stripping as it is,
      and any other character becomes the ASCII part of its decomposition. */
  lemma StripAccentsInContext(t: CharTables, a: string, c: char, b: string)
    ensures StripAccents(t, a + [c] + b) == StripAccents(t, a) + FoldChar(t, c) + StripAccents(t, b)
    ensures IsAsciiChar(c) ==> StripAccents(t, a + [c] + b) == StripAccents(t, a) + [c] + StripAccents(t, b)
    ensures !IsAsciiChar(c) ==>
      StripAccents(t, a + [c] + b) == StripAccents(t, a) + AsciiPart(t.decompose(c)) + StripAccents(t, b)
  {
    StripAccentsCharwise(t, c, a + [c], b);
    StripAccentsCharwise(t, c, a, [c]);
  }

  // ---------------------------------------------------------------------
  // Step 3: re.sub(r'http[s]?://(?:[a-zA-Z]|[0-9]|[$-_@.&+]|[!*\(\),]|(?:%[0-9a-fA-F][0-9a-fA-F]))+', '', text)

  /** The characters the URL body may repeat: '!' and the range '$'..'_'
      (which holds the digits, the capitals, '@', '.', '&', '+', '*', '(',
      ')', ',', the backslash and '%', so the `%XX` branch adds nothing),
      plus the small letters. */
  predicate IsUrlChar(c: char) {
    c == '!' || ('$' <= c <= '_') || IsAsciiLower(c)
  }

  /** `http[s]?://`: the optional 's' is tried first. */
  function SchemeLen(s: string): (k: nat)
    ensures k <= |s|
    ensures k > 0 ==> k >= 7 && s[0] == 'h' && s[6] == '/'
    ensures k > 0 ==> s[..k] == "http://" || s[..k] == "https://"
  {
    if |s| >= 8 && s[..8] == "https://" then 8
    else if |s| >= 7 && s[..7] == "http://" then 7
    else 0
  }

  /** Length of the URL match at the start of `s`, 0 when there is none: the
      scheme followed by the longest non-empty run of URL characters. */
  function UrlMatchLen(s: string): (n: nat)
    ensures n <= |s|
    ensures n > 0 ==> s[0] == 'h' && '/' in s
    ensures n > 0 ==> var k := SchemeLen(s);
      && 0 < k < n
      && AllChars(s[k..n], IsUrlChar)
      && (n < |s| ==> !IsUrlChar(s[n]))
  {
    var k := SchemeLen(s);
    var b := RunLen(s[k..], IsUrlChar);
    if k == 0 || b == 0 then 0
    else
      assert s[k..k + b] == s[k..][..b];
      assert k + b < |s| ==> s[k + b] == s[k..][b];
      k + b
  }

  /** Scan left to right; delete each URL match, copy every other character. */
  function RemoveUrls(s: string): (r: string)
    ensures multiset(r) <= multiset(s)
    ensures '/' !in s ==> r == s
    decreases |s|
  {
    if s == [] then []
    else
      var n := UrlMatchLen(s);
      if n > 0 then
        var r := RemoveUrls(s[n..]);
        SuffixMultiset(s, n);
        r
      else
        var r := RemoveUrls(s[1..]);
        SuffixMultiset(s, 1);
        assert '/' !in s ==> '/' !in s[1..];
        [s[0]] + r
  }

  lemma SuffixMultiset(s: string, n: nat)
    requires 0 < n <= |s|
    ensures multiset(s[n..]) <= multiset(s)
    ensures multiset([s[0]] + s[1..]) == multiset(s)
  {
    assert s == s[..n] + s[n..];
    assert s == [s[0]] + s[1..];
  }

  // ---------------------------------------------------------------------
  // Step 4: re.sub(r'\S+@\S+', '', text)

  /** A non-whitespace run with an '@' that is neither its first nor its
      last character. */
  predicate HasInnerAt(w: string) {
    exists k :: 0 < k < |w| - 1 && w[k] == '@'
  }

  /** Length of the `\S+@\S+` match at the start of `s`, 0 when there is none.
      The first `\S+` backtracks from the end of the run to an '@' that has a
      non-space character after it, and the second `\S+` then runs greedily
      to the end of the run: a match always covers the rest of the run. */
  function EmailMatchLen(s: string): (n: nat)
    ensures n <= |s|
    ensures n > 0 ==> '@' in s
  {
    if s == [] || IsSpace(s[0]) then 0
    else
      var n := RunLen(s, NotSpace);
      if HasInnerAt(s[..n]) then n else 0
  }

  /** Scan left to right; delete each e-mail match, copy every other character. */
  function RemoveEmails(s: string): (r: string)
    ensures multiset(r) <= multiset(s)
    ensures '@' !in s ==> r == s
    decreases |s|
  {
    if s == [] then []
    else
      var n := EmailMatchLen(s);
      if n > 0 then
        var r := RemoveEmails(s[n..]);
        SuffixMultiset(s, n);
        r
      else
        var r := RemoveEmails(s[1..]);
        SuffixMultiset(s, 1);
        assert '@' !in s ==> '@' !in s[1..];
        [s[0]] + r
  }

  /** The same step described by whole runs: each maximal non-whitespace run
      is deleted when it has an inner '@', and kept whole otherwise. */
  function RemoveEmailRuns(s: string): string
    decreases |s|
  {
    if s == [] then []
    else if IsSpace(s[0]) then [s[0]] + RemoveEmailRuns(s[1..])
    else
      var n := RunLen(s, NotSpace);
      (if HasInnerAt(s[..n]) then [] else s[..n]) + RemoveEmailRuns(s[n..])
  }

  // ---------------------------------------------------------------------
  // Step 5: re.sub(r'[^\w\s\.\,\!\?\;\:]', ' ', text)

  /** The characters `clean_text` can return: ASCII letters and digits, '_',
      the punctuation `. , ! ? ; :`, and the plain space. */
  predicate IsCleanChar(c: char) {
    || IsAsciiLower(c) || IsAsciiUpper(c) || IsAsciiDigit(c) || c == '_'
    || c == '.' || c == ',' || c == '!' || c == '?' || c == ';' || c == ':'
    || c == ' '
  }

  /** The characters the step keeps, on ASCII text: `\w`, `\s` and the six
      punctuation marks. */
  predicate IsKept(c: char) { IsCleanChar(c) || IsSpace(c) }

  /** Replace every character outside the kept set by a space. The step only
      ever sees the output of step 2, which is ASCII; on ASCII `\w` is exactly
      the letters, the digits and '_'. */
  function ReplaceDisallowed(s: string): (r: string)
    requires IsAscii(s)
    ensures |r| == |s| && AllChars(r, IsKept)
    ensures forall i :: 0 <= i < |s| ==> r[i] == (if IsKept(s[i]) then s[i] else ' ')
  {
    if s == [] then []
    else [if IsKept(s[0]) then s[0] else ' '] + ReplaceDisallowed(s[1..])
  }

  // ---------------------------------------------------------------------
  // Step 6: re.sub(r'\s+', ' ', text).strip()

  /** Scan left to right; each maximal whitespace run becomes one space. */
  function CollapseSpaces(s: string): string
    decreases |s|
  {
    if s == [] then []
    else if IsSpace(s[0]) then " " + CollapseSpaces(s[RunLen(s, IsSpace)..])
    else [s[0]] + CollapseSpaces(s[1..])
  }

  function TrimEnd(s: string): string {
    if s != [] && IsSpace(s[|s| - 1]) then TrimEnd(s[..|s| - 1]) else s
  }

  /** `str.strip()`. */
  function Strip(s: string): string {
    TrimEnd(s[RunLen(s, IsSpace)..])
  }

  /** Collapsing whitespace runs and trimming is joining the words with
      single spaces: `' '.join(s.split())`. */
  function Normalize(s: string): (r: string)
    ensures r == Join(" ", Split(s))
    ensures Tidy(r)
  {
    CollapseShape(s);
    SplitWords(s);
    JoinTidy(Split(s));
    StripAroundTidy(Join(" ", Split(s)), Lead(s), Trail(s));
    Strip(CollapseSpaces(s))
  }

  // ---------------------------------------------------------------------
  // The whole of clean_text

  /** `NLPProcessor.clean_text`. */
  function CleanText(t: CharTables, text: string): (r: string)
    ensures AllChars(r, IsCleanChar)
    ensures Tidy(r)
  {
    var lowered := Lower(t, text);
    var folded := StripAccents(t, lowered);
    var noUrls := RemoveUrls(folded);
    var noEmails := RemoveEmails(noUrls);
    SubMultisetKeeps(noUrls, folded, IsAsciiChar);
    SubMultisetKeeps(noEmails, noUrls, IsAsciiChar);
    var kept := ReplaceDisallowed(noEmails);
    CleanWords(kept);
    Normalize(kept)
  }

  // ---------------------------------------------------------------------
  // Lemmas behind the contracts above

  /** The words of a string of kept characters are made of clean characters,
      so joining them with spaces gives only clean characters. */
  lemma CleanWords(s: string)
    requires AllChars(s, IsKept)
    ensures AllChars(Join(" ", Split(s)), IsCleanChar)
  {
    var ws := Split(s);
    SplitWords(s);
    SplitKeepsChars(s, IsKept);
    forall i | 0 <= i < |ws| ensures AllChars(ws[i], IsCleanChar) {
      assert IsWord(ws[i]) && AllChars(ws[i], IsKept);
    }
    JoinKeepsChars(" ", ws, IsCleanChar);
  }

  /** A run of non-whitespace characters is copied through `CollapseSpaces`. */
  lemma {:induction false} CollapseWord(s: string, n: nat)
    requires n <= |s| && forall i :: 0 <= i < n ==> !IsSpace(s[i])
    ensures CollapseSpaces(s) == s[..n] + CollapseSpaces(s[n..])
  {
    if n > 0 {
      CollapseWord(s[1..], n - 1);
      assert s[1..][n - 1..] == s[n..];
      assert s[..n] == [s[0]] + s[1..][..n - 1];
    }
  }

  /** A string without words is all whitespace. */
  lemma {:induction false} SplitEmpty(s: string)
    requires Split(s) == []
    ensures RunLen(s, IsSpace) == |s|
  {
    if s != [] {
      SplitEmpty(s[1..]);
    }
  }

  /** The single space `CollapseSpaces` leaves in front of the words. */
  function Lead(s: string): string {
    if s != [] && IsSpace(s[0]) then " " else ""
  }

  /** The single space `CollapseSpaces` leaves after the last word. */
  function Trail(s: string): string {
    if Split(s) != [] && IsSpace(s[|s| - 1]) then " " else ""
  }

  /** `CollapseSpaces(s)` is the words joined by single spaces, with one extra
      space in front when `s` starts with whitespace and one at the back when
      `s` has a word and ends with whitespace. */
  lemma {:induction false} CollapseShape(s: string)
    ensures CollapseSpaces(s) == Lead(s) + Join(" ", Split(s)) + Trail(s)
    decreases |s|, 1
  {
    if s == [] {
    } else if IsSpace(s[0]) {
      CollapseShapeSpace(s);
    } else {
      CollapseShapeWord(s);
    }
  }

  lemma {:induction false} CollapseShapeSpace(s: string)
    requires s != [] && IsSpace(s[0])
    ensures CollapseSpaces(s) == Lead(s) + Join(" ", Split(s)) + Trail(s)
    decreases |s|, 0
  {
    var k := RunLen(s, IsSpace);
    var u := s[k..];
    SpaceStep(s, k);
    SpaceStepTrail(s, k);
    CollapseShape(u);
    DropEmptyLead(" ", Join(" ", Split(u)), Trail(u));
  }

  /** The facts about leading whitespace that `CollapseShapeSpace` needs. */
  lemma SpaceStep(s: string, k: nat)
    requires s != [] && IsSpace(s[0]) && k == RunLen(s, IsSpace)
    ensures Lead(s) == " " && Lead(s[k..]) == ""
    ensures CollapseSpaces(s) == " " + CollapseSpaces(s[k..])
    ensures Split(s) == Split(s[k..])
  {
    SplitSkipsSpaces(s, k);
  }

  lemma SpaceStepTrail(s: string, k: nat)
    requires s != [] && IsSpace(s[0]) && k == RunLen(s, IsSpace)
    requires Split(s) == Split(s[k..])
    ensures Trail(s[k..]) == Trail(s)
  {
    var u := s[k..];
    if Split(s) != [] {
      assert u != [] && u[|u| - 1] == s[|s| - 1];
    }
  }

  /** An empty lead between a space and the joined words can be dropped. */
  lemma DropEmptyLead(a: string, j: string, t: string)
    ensures a + ("" + j + t) == a + j + t
  {
    assert "" + j == j;
  }

  lemma {:induction false} CollapseShapeWord(s: string)
    requires s != [] && !IsSpace(s[0])
    ensures CollapseSpaces(s) == Lead(s) + Join(" ", Split(s)) + Trail(s)
    decreases |s|, 0
  {
    var n := RunLen(s, NotSpace);
    var w, u := s[..n], s[n..];
    WordStep(s, n);
    CollapseWord(s, n);
    SplitFirstWord(s, n);
    if u == [] {
      assert w == s;
      LastWord(s);
    } else {
      CollapseShape(u);
      WordThenRest(s, w, u, CollapseSpaces(s), CollapseSpaces(u));
    }
  }

  /** The facts about a first word that `CollapseShapeWord` needs. */
  lemma WordStep(s: string, n: nat)
    requires s != [] && !IsSpace(s[0]) && n == RunLen(s, NotSpace)
    ensures 0 < n
    ensures HasNoSpace(s[..n])
    ensures s[n..] != [] ==> IsSpace(s[n..][0]) && s[n..][|s[n..]| - 1] == s[|s| - 1]
  {
  }

  lemma LastWord(s: string)
    requires s != [] && HasNoSpace(s)
    requires CollapseSpaces(s) == s
    requires Split(s) == [s]
    ensures CollapseSpaces(s) == Lead(s) + Join(" ", Split(s)) + Trail(s)
  {
    assert !IsSpace(s[0]) && !IsSpace(s[|s| - 1]);
  }

  /** A word followed by whitespace and possibly more words. */
  lemma WordThenRest(s: string, w: string, u: string, cs: string, cu: string)
    requires s != [] && !IsSpace(s[0]) && u != [] && IsSpace(u[0]) && s[|s| - 1] == u[|u| - 1]
    requires Split(s) == [w] + Split(u)
    requires cu == Lead(u) + Join(" ", Split(u)) + Trail(u)
    requires cs == w + cu
    ensures cs == Lead(s) + Join(" ", Split(s)) + Trail(s)
  {
    var j, t := Join(" ", Split(u)), Trail(u);
    if Split(u) == [] {
      SplitEmpty(u);
      assert Lead(s) == "" && Trail(s) == " " && Join(" ", Split(s)) == w;
      assert cu == " " by {
        assert Lead(u) == " " && j == [] && t == "";
      }
    } else {
      assert Lead(s) == "" && Lead(u) == " " && Trail(s) == t;
      JoinCons(w, Split(u));
      RegroupWordAndRest(cs, cu, w, j, t, Join(" ", Split(s)));
    }
  }

  /** A first word followed by " " + rest regroups as the joined words
      followed by the trail, with an empty lead. */
  lemma RegroupWordAndRest(cs: string, cu: string, w: string, j: string, t: string, js: string)
    requires cu == " " + j + t && cs == w + cu && js == w + " " + j
    ensures cs == "" + js + t
  {
    assert "" + js == js;
  }

  lemma ConcatAssoc(a: string, b: string, c: string, d: string)
    ensures a + (b + c + d) == a + b + c + d
  {
  }

  /** `TrimEnd` removes the one trailing space after a tidy string. */
  lemma TrimEndTidy(j: string, trailing: string)
    requires Tidy(j)
    requires trailing == "" || (trailing == " " && j != [])
    ensures TrimEnd(j + trailing) == j
  {
    if trailing == " " {
      assert (j + " ")[..|j|] == j;
    }
  }

  /** Stripping a tidy string with at most one space added at each end gives
      the tidy string back. */
  lemma StripAroundTidy(j: string, leading: string, trailing: string)
    requires Tidy(j)
    requires leading == "" || leading == " "
    requires trailing == "" || (trailing == " " && j != [])
    ensures Strip(leading + j + trailing) == j
  {
    var x := leading + j + trailing;
    var y := j + trailing;
    assert x == leading + y;
    assert y == [] || !IsSpace(y[0]) by {
      if j != [] { assert y[0] == j[0]; }
    }
    RunLenUnique(x, IsSpace, |leading|);
    assert x[|leading|..] == y;
    TrimEndTidy(j, trailing);
  }
}

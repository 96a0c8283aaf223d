/** What `NLPProcessor.clean_text` promises about its output, proved from the
    step-by-step model in TextCleaning. */
module CleanTextProperties {
  import opened Text
  import opened TextCleaning

  // ---------------------------------------------------------------------
  // URL removal

  /** A URL match can only start at an 'h'. */
  lemma {:induction false} RemoveUrlsCopiesPrefix(p: string, s: string)
    requires 'h' !in p
    ensures RemoveUrls(p + s) == p + RemoveUrls(s)
  {
    if p != [] {
      ConsConcat(p, s);
      assert UrlMatchLen(p + s) == 0;
      RemoveUrlsCopiesPrefix(p[1..], s);
      ConsConcat(p, RemoveUrls(s));
    } else {
      assert p + s == s;
    }
  }

  /** A URL match at the front of the text is skipped. */
  lemma RemoveUrlsSkipsMatch(s: string)
    requires UrlMatchLen(s) > 0
    ensures RemoveUrls(s) == RemoveUrls(s[UrlMatchLen(s)..])
  {
  }

  /** The scheme at the front of a string is recognised with its length. */
  lemma SchemeRecognised(scheme: string, rest: string)
    requires scheme == "http://" || scheme == "https://"
    ensures SchemeLen(scheme + rest) == |scheme|
  {
    var s := scheme + rest;
    assert s[..|scheme|] == scheme;
    if scheme == "http://" && |s| >= 8 {
      assert s[..8][4] == ':';
      assert "https://"[4] == 's';
    }
  }

  /** The URL match at the front of scheme + body + q covers scheme + body. */
  lemma UrlMatchCovers(scheme: string, body: string, q: string)
    requires scheme == "http://" || scheme == "https://"
    requires body != [] && AllChars(body, IsUrlChar)
    requires q == [] || !IsUrlChar(q[0])
    ensures UrlMatchLen(scheme + body + q) == |scheme| + |body|
  {
    var rest := body + q;
    var s := scheme + rest;
    assert scheme + body + q == s;
    SchemeRecognised(scheme, rest);
    assert s[|scheme|..] == rest;
    RunLenUnique(rest, IsUrlChar, |body|);
  }

  /** "http://" or "https://" followed by a maximal run of URL characters is
      deleted entirely, and no word boundary is needed before it: text before
      it that has no 'h' is copied unchanged and text after it is scanned on. */
  lemma {:induction false} UrlDeletedWhole(p: string, scheme: string, body: string, q: string)
    requires scheme == "http://" || scheme == "https://"
    requires body != [] && AllChars(body, IsUrlChar)
    requires q == [] || !IsUrlChar(q[0])
    requires 'h' !in p
    ensures RemoveUrls(p + scheme + body + q) == p + RemoveUrls(q)
  {
    var s := scheme + body + q;
    assert p + scheme + body + q == p + s by {
      ConcatAssoc(p, scheme, body, q);
    }
    RemoveUrlsCopiesPrefix(p, s);
    UrlMatchCovers(scheme, body, q);
    RemoveUrlsSkipsMatch(s);
    assert s[|scheme| + |body|..] == q;
  }

  /** A recognised scheme consists of URL characters, and only its first
      character is an 'h'. */
  lemma SchemeChars(s: string)
    requires SchemeLen(s) > 0
    ensures forall i :: 0 <= i < SchemeLen(s) ==> IsUrlChar(s[i])
    ensures forall i :: 0 < i < SchemeLen(s) ==> s[i] != 'h'
  {
    var k := SchemeLen(s);
    var w := s[..k];
    assert w == "https://" || w == "http://";
    forall i | 0 <= i < k ensures IsUrlChar(s[i]) && (i > 0 ==> s[i] != 'h') {
      assert s[i] == w[i];
    }
  }

  /** A URL match that starts in `p` and reaches into the match `m` runs to
      the end of `m`. Its scheme lies inside `p`: a scheme reaching into `m`
      would have the 'h' that starts `m` at an inner position. */
  lemma MatchSpansToEnd(p: string, m: string, q: string)
    requires m != [] && m[0] == 'h' && AllChars(m, IsUrlChar)
    requires q == [] || !IsUrlChar(q[0])
    requires p != [] && UrlMatchLen(p + (m + q)) > |p|
    ensures UrlMatchLen(p + (m + q)) == |p| + |m|
  {
    var s := p + (m + q);
    var k := SchemeLen(s);
    SchemeChars(s);
    assert s[|p|] == 'h';
    assert k <= |p|;
    var t := s[k..];
    var len := |p| + |m| - k;
    var b := RunLen(t, IsUrlChar);
    forall i | 0 <= i < len ensures IsUrlChar(t[i]) {
      if k + i < |p| {
        assert i < b;
      } else {
        assert t[i] == m[k + i - |p|];
      }
    }
    assert len < |t| ==> t[len] == q[0];
    RunLenUnique(t, IsUrlChar, len);
  }

  /** Where no match starts, the scanner copies the first character. */
  lemma CopyStep(s: string, rest: string, tail: string)
    requires s != [] && UrlMatchLen(s) == 0
    requires RemoveUrls(s[1..]) == rest + tail
    ensures RemoveUrls(s) == ([s[0]] + rest) + tail
  {
  }

  /** A match that ends inside `p` is skipped. */
  lemma SkipStep(s: string, n: nat, rest: string, tail: string)
    requires 0 < n <= |s| && UrlMatchLen(s) == n
    requires RemoveUrls(s[n..]) == rest + tail
    ensures RemoveUrls(s) == rest + tail
  {
  }

  lemma DropConcat(p: string, u: string, n: nat)
    requires n <= |p|
    ensures (p + u)[n..] == p[n..] + u
  {
  }

  lemma DropPrefix(a: string, b: string)
    ensures (a + b)[|a|..] == b
  {
  }

  /** A match that reaches into `m` removes the rest of `p` and all of `m`. */
  lemma SpanStep(p: string, m: string, q: string)
    requires m != [] && m[0] == 'h' && AllChars(m, IsUrlChar)
    requires q == [] || !IsUrlChar(q[0])
    requires p != [] && UrlMatchLen(p + (m + q)) > |p|
    ensures RemoveUrls(p + (m + q)) == RemoveUrls(q)
  {
    var s := p + (m + q);
    MatchSpansToEnd(p, m, q);
    assert s == (p + m) + q;
    DropPrefix(p + m, q);
    RemoveUrlsSkipsMatch(s);
  }

  lemma EmptyConcat(e: string, x: string)
    requires e == []
    ensures e + x == x
  {
  }

  /** A match at the front is deleted and the scan goes on after it. */
  lemma MatchAtFrontDeleted(m: string, q: string)
    requires m != [] && UrlMatchLen(m + q) == |m|
    ensures RemoveUrls(m + q) == RemoveUrls(q)
  {
    DropPrefix(m, q);
    RemoveUrlsSkipsMatch(m + q);
  }

  /** The copy step of the scan, lifted to a prefix `p` before `u`. */
  lemma CopyCase(p: string, u: string, rest: string, tail: string)
    requires p != [] && UrlMatchLen(p + u) == 0
    requires multiset(rest) <= multiset(p[1..]) && RemoveUrls(p[1..] + u) == rest + tail
    ensures multiset([p[0]] + rest) <= multiset(p)
    ensures RemoveUrls(p + u) == ([p[0]] + rest) + tail
  {
    DropConcat(p, u, 1);
    CopyStep(p + u, rest, tail);
    SuffixMultiset(p, 1);
  }

  /** The skip step of the scan, for a match that ends inside `p`. */
  lemma SkipCase(p: string, u: string, n: nat, rest: string, tail: string)
    requires 0 < n <= |p| && UrlMatchLen(p + u) == n
    requires multiset(rest) <= multiset(p[n..]) && RemoveUrls(p[n..] + u) == rest + tail
    ensures multiset(rest) <= multiset(p)
    ensures RemoveUrls(p + u) == rest + tail
  {
    DropConcat(p, u, n);
    SkipStep(p + u, n, rest, tail);
    SuffixMultiset(p, n);
  }

  /** A match `m` followed by a character that cannot extend it is deleted
      whole after any text `p`; `kept` is what the scan leaves of `p`. */
  lemma {:induction false} MatchDeletedAfterAnyText(p: string, m: string, q: string) returns (kept: string)
    requires m != [] && m[0] == 'h' && AllChars(m, IsUrlChar)
    requires q == [] || !IsUrlChar(q[0])
    requires UrlMatchLen(m + q) == |m|
    ensures multiset(kept) <= multiset(p)
    ensures RemoveUrls(p + (m + q)) == kept + RemoveUrls(q)
    decreases |p|
  {
    var u := m + q;
    var tail := RemoveUrls(q);
    kept := [];
    if p == [] {
      EmptyConcat(p, u);
      EmptyConcat(kept, tail);
      MatchAtFrontDeleted(m, q);
    } else {
      var s := p + u;
      var n := UrlMatchLen(s);
      if n == 0 {
        var rest := MatchDeletedAfterAnyText(p[1..], m, q);
        CopyCase(p, u, rest, tail);
        kept := [p[0]] + rest;
      } else if n <= |p| {
        var rest := MatchDeletedAfterAnyText(p[n..], m, q);
        SkipCase(p, u, n, rest, tail);
        kept := rest;
      } else {
        SpanStep(p, m, q);
        EmptyConcat(kept, tail);
      }
    }
  }

  /** "http://" or "https://" followed by a maximal run of URL characters is
      deleted entirely after any text: what comes out before the text after
      the URL is drawn from the text before it alone. */
  lemma UrlDeletedAfterAnyText(p: string, scheme: string, body: string, q: string)
    requires scheme == "http://" || scheme == "https://"
    requires body != [] && AllChars(body, IsUrlChar)
    requires q == [] || !IsUrlChar(q[0])
    ensures exists kept :: multiset(kept) <= multiset(p) && RemoveUrls(p + scheme + body + q) == kept + RemoveUrls(q)
  {
    var m := scheme + body;
    UrlMatchIsWhole(scheme, body, q);
    var kept := MatchDeletedAfterAnyText(p, m, q);
    ConcatAssoc(p, scheme, body, q);
  }

  /** The scheme and a body of URL characters make up one whole match. */
  lemma UrlMatchIsWhole(scheme: string, body: string, q: string)
    requires scheme == "http://" || scheme == "https://"
    requires body != [] && AllChars(body, IsUrlChar)
    requires q == [] || !IsUrlChar(q[0])
    ensures (scheme + body)[0] == 'h' && AllChars(scheme + body, IsUrlChar)
    ensures UrlMatchLen((scheme + body) + q) == |scheme + body|
  {
    UrlMatchCovers(scheme, body, q);
    SchemeIsUrlChars(scheme);
    AllCharsAppend(scheme, body, IsUrlChar);
  }

  lemma SchemeIsUrlChars(scheme: string)
    requires scheme == "http://" || scheme == "https://"
    ensures AllChars(scheme, IsUrlChar)
  {
  }

  lemma AllCharsAppend(a: string, b: string, f: char -> bool)
    requires AllChars(a, f) && AllChars(b, f)
    ensures AllChars(a + b, f)
  {
  }

  /** Only URL matches are deleted: text in which no position starts a
      match comes out unchanged. */
  lemma {:induction false} RemoveUrlsKeepsUnmatched(s: string)
    requires forall i :: 0 <= i < |s| ==> UrlMatchLen(s[i..]) == 0
    ensures RemoveUrls(s) == s
    decreases |s|
  {
    if s != [] {
      assert s[0..] == s;
      forall i | 0 <= i < |s[1..]| ensures UrlMatchLen(s[1..][i..]) == 0 {
        assert s[1..][i..] == s[i + 1..];
      }
      RemoveUrlsKeepsUnmatched(s[1..]);
      assert s == [s[0]] + s[1..];
    }
  }

  /** No match starts in `p` before `s`: the scanner copies p[0], and no
      match starts in p[1..] before `s` either. */
  lemma NoMatchTail(p: string, s: string)
    requires p != []
    requires forall i :: 0 <= i < |p| ==> UrlMatchLen((p + s)[i..]) == 0
    ensures UrlMatchLen(p + s) == 0
    ensures forall i :: 0 <= i < |p[1..]| ==> UrlMatchLen((p[1..] + s)[i..]) == 0
  {
    assert (p + s)[0..] == p + s;
    DropConcat(p, s, 1);
    forall i | 0 <= i < |p[1..]| ensures UrlMatchLen((p[1..] + s)[i..]) == 0 {
      assert (p[1..] + s)[i..] == (p + s)[i + 1..];
    }
  }

  /** Only URL matches are deleted: text in which no position starts a
      match is copied unchanged, whatever follows it. */
  lemma {:induction false} RemoveUrlsKeepsUnmatchedPrefix(p: string, s: string)
    requires forall i :: 0 <= i < |p| ==> UrlMatchLen((p + s)[i..]) == 0
    ensures RemoveUrls(p + s) == p + RemoveUrls(s)
    decreases |p|
  {
    if p == [] {
      EmptyConcat(p, s);
      EmptyConcat(p, RemoveUrls(s));
    } else {
      NoMatchTail(p, s);
      RemoveUrlsKeepsUnmatchedPrefix(p[1..], s);
      DropConcat(p, s, 1);
      CopyStep(p + s, p[1..], RemoveUrls(s));
      ConsConcat(p, s);
      ConsConcat(p, RemoveUrls(s));
    }
  }

  /** "http://" or "https://" followed by a maximal run of URL characters is
      deleted entirely, and text before it in which no match starts is kept
      unchanged. */
  lemma UrlDeletedAfterUnmatchedText(p: string, scheme: string, body: string, q: string)
    requires scheme == "http://" || scheme == "https://"
    requires body != [] && AllChars(body, IsUrlChar)
    requires q == [] || !IsUrlChar(q[0])
    requires forall i :: 0 <= i < |p| ==> UrlMatchLen((p + (scheme + body + q))[i..]) == 0
    ensures RemoveUrls(p + scheme + body + q) == p + RemoveUrls(q)
  {
    var m := scheme + body;
    UrlMatchIsWhole(scheme, body, q);
    RemoveUrlsKeepsUnmatchedPrefix(p, m + q);
    MatchAtFrontDeleted(m, q);
    ConcatAssoc(p, scheme, body, q);
  }

  // ---------------------------------------------------------------------
  // E-mail removal

  /** Inside a run with no inner '@', no e-mail match starts. */
  lemma NoEmailMatchInRun(s: string, n: nat, j: nat)
    requires 0 < n <= |s| && n == RunLen(s, NotSpace)
    requires !HasInnerAt(s[..n])
    requires j < n
    ensures EmailMatchLen(s[j..]) == 0
  {
    var u := s[j..];
    var m := n - j;
    assert u[0] == s[j] && NotSpace(s[j]);
    RunLenUnique(u, NotSpace, m);
    var w := u[..m];
    assert !HasInnerAt(w) by {
      forall k | 0 < k < m - 1 ensures w[k] != '@' {
        assert w[k] == s[..n][j + k];
      }
    }
  }

  /** Where no e-mail match starts, the scanner copies one character. */
  lemma EmailScanCopies(s: string, j: nat)
    requires j < |s| && EmailMatchLen(s[j..]) == 0
    ensures RemoveEmails(s[j..]) == [s[j]] + RemoveEmails(s[j + 1..])
  {
    assert s[j..][1..] == s[j + 1..];
  }

  lemma ConsSlice(s: string, j: nat, n: nat, tail: string)
    requires j < n <= |s|
    ensures [s[j]] + (s[j + 1..n] + tail) == s[j..n] + tail
  {
    assert s[j..n] == [s[j]] + s[j + 1..n];
  }

  /** Inside a run with no inner '@', the scanner copies the rest of the run. */
  lemma {:induction false} CopyRunTail(s: string, n: nat, j: nat)
    requires 0 < n <= |s| && n == RunLen(s, NotSpace)
    requires !HasInnerAt(s[..n])
    requires j <= n
    ensures RemoveEmails(s[j..]) == s[j..n] + RemoveEmails(s[n..])
    decreases n - j
  {
    if j < n {
      NoEmailMatchInRun(s, n, j);
      EmailScanCopies(s, j);
      CopyRunTail(s, n, j + 1);
      ConsSlice(s, j, n, RemoveEmails(s[n..]));
    }
  }

  /** The `\S+@\S+` scanner deletes exactly the maximal non-whitespace runs
      that have an '@' neither first nor last, each as a whole: no fragment of
      an address (such as its domain) survives, and every other run is kept. */
  lemma {:induction false} EmailRunsDeletedWhole(s: string)
    ensures RemoveEmails(s) == RemoveEmailRuns(s)
    decreases |s|
  {
    if s != [] {
      if IsSpace(s[0]) {
        EmailRunsDeletedWhole(s[1..]);
      } else {
        var n := RunLen(s, NotSpace);
        EmailRunsDeletedWhole(s[n..]);
        if !HasInnerAt(s[..n]) {
          CopyRunTail(s, n, 0);
          assert s[0..] == s && s[0..n] == s[..n];
        }
      }
    }
  }

  // ---------------------------------------------------------------------
  // The output of clean_text

  predicate IsAsciiSpace(c: char) { IsSpace(c) && IsAsciiChar(c) }

  /** A text made only of ASCII whitespace, the empty text included, cleans
      to the empty string. */
  lemma BlankCleansToEmpty(t: CharTables, text: string)
    requires AllChars(text, IsAsciiSpace)
    ensures CleanText(t, text) == ""
  {
    assert IsAscii(text) && NoAsciiUpper(text) && '/' !in text && '@' !in text by {
      forall i | 0 <= i < |text|
        ensures IsAsciiChar(text[i]) && !IsAsciiUpper(text[i]) && text[i] != '/' && text[i] != '@'
      {
        assert IsAsciiSpace(text[i]);
      }
    }
    var kept := ReplaceDisallowed(text);
    assert kept == text;
    SplitSkipsSpaces(text, |text|);
    assert text[|text|..] == [];
  }

  /** Every character `clean_text` returns is ASCII. */
  lemma CleanTextIsAscii(t: CharTables, text: string)
    ensures IsAscii(CleanText(t, text))
  {
    CleanCharsAreAscii(CleanText(t, text));
  }

  lemma CleanCharsAreAscii(s: string)
    requires AllChars(s, IsCleanChar)
    ensures IsAscii(s)
  {
    forall i | 0 <= i < |s| ensures IsAsciiChar(s[i]) {
      assert IsCleanChar(s[i]);
    }
  }

  /** The Unicode tables never produce an ASCII capital: neither the
      lowercase of a character nor its compatibility decomposition. */
  ghost predicate LowercaseFold(t: CharTables) {
    forall c :: NoAsciiUpper(t.lowerTable(c)) && NoAsciiUpper(t.decompose(c))
  }

  /** A string on which every step of clean_text is the identity. */
  predicate IsCleaned(s: string) {
    AllChars(s, IsCleanChar) && NoAsciiUpper(s) && Tidy(s)
  }

  /** With tables that never yield a capital, clean_text yields no capital. */
  lemma {:induction false} CleanTextLowercase(t: CharTables, text: string)
    requires LowercaseFold(t)
    ensures NoAsciiUpper(CleanText(t, text))
  {
    var lowered := Lower(t, text);
    var folded := StripAccents(t, lowered);
    var noUrls := RemoveUrls(folded);
    var noEmails := RemoveEmails(noUrls);
    assert AllChars(folded, NotAsciiUpper);
    SubMultisetKeeps(noUrls, folded, NotAsciiUpper);
    SubMultisetKeeps(noEmails, noUrls, NotAsciiUpper);
    SubMultisetKeeps(noUrls, folded, IsAsciiChar);
    SubMultisetKeeps(noEmails, noUrls, IsAsciiChar);
    var kept := ReplaceDisallowed(noEmails);
    assert AllChars(kept, NotAsciiUpper);
    SplitKeepsChars(kept, NotAsciiUpper);
    JoinKeepsChars(" ", Split(kept), NotAsciiUpper);
    assert AllChars(Normalize(kept), NotAsciiUpper);
  }

  /** After lowercasing and folding, the remaining steps of clean_text leave
      a string of clean characters in tidy shape as it is. */
  lemma LaterStepsFix(f: string)
    requires AllChars(f, IsCleanChar) && Tidy(f)
    ensures IsAscii(f)
    ensures RemoveUrls(f) == f && RemoveEmails(f) == f
    ensures ReplaceDisallowed(f) == f
    ensures Normalize(f) == f
  {
    assert IsAscii(f) && '/' !in f && '@' !in f by {
      forall i | 0 <= i < |f| ensures IsAsciiChar(f[i]) && f[i] != '/' && f[i] != '@' {
        assert IsCleanChar(f[i]);
      }
    }
    assert ReplaceDisallowed(f) == f;
    TidyIsJoinOfSplit(f);
  }

  /** On a cleaned string every step of clean_text changes nothing. */
  lemma CleanTextFixesCleaned(t: CharTables, s: string)
    requires IsCleaned(s)
    ensures CleanText(t, s) == s
  {
    LaterStepsFix(s);
    assert Lower(t, s) == s;
    assert StripAccents(t, s) == s;
  }

  /** clean_text is a fixed point on its own output, provided the Unicode
      tables never yield an ASCII capital. */
  lemma CleanTextIdempotent(t: CharTables, text: string)
    requires LowercaseFold(t)
    ensures CleanText(t, CleanText(t, text)) == CleanText(t, text)
  {
    CleanTextLowercase(t, text);
    CleanTextFixesCleaned(t, CleanText(t, text));
  }

  /** Without that proviso clean_text is not idempotent, because lowercasing
      runs before the decomposition. U+2122 TRADE MARK SIGN is such a
      character: it has no lowercase form and decomposes to the capitals "TM",
      so "™" cleans to "TM", which cleans to "tm". */
  lemma CleanTextNotIdempotentOnCapitalDecomposition(t: CharTables, c: char)
    requires !IsAsciiChar(c) && t.lowerTable(c) == [c] && t.decompose(c) == "TM"
    ensures CleanText(t, [c]) == "TM"
    ensures CleanText(t, "TM") == "tm"
  {
    CapitalDecompositionCleans(t, c);
    CapitalsCleanToSmall(t);
  }

  lemma CapitalDecompositionCleans(t: CharTables, c: char)
    requires !IsAsciiChar(c) && t.lowerTable(c) == [c] && t.decompose(c) == "TM"
    ensures CleanText(t, [c]) == "TM"
  {
    var tm := t.decompose(c);
    TwoLettersClean(tm);
    LowerCharwise(t, c, [], []);
    StripAccentsCharwise(t, c, [], []);
    FoldedCleanStays(t, [c], tm);
  }

  lemma CapitalsCleanToSmall(t: CharTables)
    ensures CleanText(t, "TM") == "tm"
  {
    var tm := "tm";
    TwoLettersClean(tm);
    assert Lower(t, "TM") == tm;
    FoldedCleanStays(t, "TM", tm);
  }

  lemma TwoLettersClean(s: string)
    requires s == "TM" || s == "tm"
    ensures IsAscii(s) && Tidy(s) && AllChars(s, IsCleanChar)
  {
  }

  /** Text that lowercasing and folding turn into tidy clean text cleans to it. */
  lemma FoldedCleanStays(t: CharTables, text: string, f: string)
    requires StripAccents(t, Lower(t, text)) == f
    requires AllChars(f, IsCleanChar) && Tidy(f)
    ensures CleanText(t, text) == f
  {
    LaterStepsFix(f);
  }
}

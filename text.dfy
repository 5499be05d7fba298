/** The string handling of the analyser: the regular expressions `[가-힣]+|[a-zA-Z]+` and
    `[가-힣]+` used with `re.findall`, `re.split(r'[.!?]', ...)`, `str.strip()`, the emoji
    pattern and the substring test `keyword in text`. Strings are sequences of Unicode
    code points, as Python's `str` is. */
module Text {

  /** The regex class `[가-힣]`: the Hangul syllables U+AC00 to U+D7A3. */
  predicate IsHangul(c: char)
  {
    '\U{AC00}' <= c <= '\U{D7A3}'
  }

  /** The regex class `[a-zA-Z]`. */
  predicate IsAsciiLetter(c: char)
  {
    'a' <= c <= 'z' || 'A' <= c <= 'Z'
  }

  datatype CharClass = Hangul | Latin | Gap

  /** The class of `c` for a pattern made of Hangul runs and, when `latin` holds, of
      ASCII-letter runs too; every other character separates tokens. */
  function ClassOf(c: char, latin: bool): CharClass
  {
    if IsHangul(c) then Hangul
    else if latin && IsAsciiLetter(c) then Latin
    else Gap
  }

  /** Length of the longest prefix of `s` whose characters all have class `cls`. */
  function Span(s: string, cls: CharClass, latin: bool): (n: nat)
    ensures n <= |s|
    ensures forall i :: 0 <= i < n ==> ClassOf(s[i], latin) == cls
    ensures n < |s| ==> ClassOf(s[n], latin) != cls
    ensures s != [] && ClassOf(s[0], latin) == cls ==> n >= 1
  {
    if s == [] || ClassOf(s[0], latin) != cls then 0 else 1 + Span(s[1..], cls, latin)
  }

  /** `re.findall(r'[가-힣]+|[a-zA-Z]+', s)` when `latin` holds and `re.findall(r'[가-힣]+', s)`
      when it does not: at each position the regex takes the longest run of the class of the
      character there, and skips a character of no class. */
  function Runs(s: string, latin: bool): seq<string>
    decreases |s|
  {
    if s == [] then []
    else if ClassOf(s[0], latin) == Gap then Runs(s[1..], latin)
    else
      var n := Span(s, ClassOf(s[0], latin), latin);
      [s[..n]] + Runs(s[n..], latin)
  }

  /** `extract_words`: the Hangul and ASCII-letter words of a text, which are its maximal runs
      of Hangul syllables and of ASCII letters, in order. */
  function ExtractWords(text: string): (r: seq<string>)
    ensures forall t :: t in r ==> |t| > 0 && (AllHangul(t) || AllAsciiLetters(t))
    ensures Concat(r) == WordChars(text, true)
    ensures exists a: seq<nat>, b: seq<nat> :: MaximalRuns(text, true, 0, r, a, b)
  {
    RunsShape(text, true);
    RunsCover(text, true);
    RunsMaximal(text, true);
    Runs(text, true)
  }

  /** The Hangul-only words of a text: its maximal runs of Hangul syllables, in order. */
  function HangulWords(text: string): (r: seq<string>)
    ensures forall t :: t in r ==> |t| > 0 && AllHangul(t)
    ensures Concat(r) == WordChars(text, false)
    ensures exists a: seq<nat>, b: seq<nat> :: MaximalRuns(text, false, 0, r, a, b)
  {
    RunsShape(text, false);
    RunsCover(text, false);
    RunsMaximal(text, false);
    Runs(text, false)
  }

  predicate AllHangul(t: string)
  {
    forall i :: 0 <= i < |t| ==> IsHangul(t[i])
  }

  predicate AllAsciiLetters(t: string)
  {
    forall i :: 0 <= i < |t| ==> IsAsciiLetter(t[i])
  }

  /** Every token is non-empty and made only of Hangul syllables or only of ASCII letters;
      without `latin`, only of Hangul syllables. */
  lemma {:induction false} RunsShape(s: string, latin: bool)
    ensures forall t :: t in Runs(s, latin) ==>
      && |t| > 0
      && (AllHangul(t) || (latin && AllAsciiLetters(t)))
    decreases |s|
  {
    if s != [] {
      var c := ClassOf(s[0], latin);
      if c == Gap {
        RunsShape(s[1..], latin);
      } else {
        var n := Span(s, c, latin);
        RunsShape(s[n..], latin);
        var t := s[..n];
        assert c == Hangul ==> AllHangul(t) by {
          forall i | 0 <= i < |t| ensures c == Hangul ==> IsHangul(t[i]) {
            assert ClassOf(s[i], latin) == c;
          }
        }
        assert c == Latin ==> latin && AllAsciiLetters(t) by {
          forall i | 0 <= i < |t| ensures c == Latin ==> latin && IsAsciiLetter(t[i]) {
            assert ClassOf(s[i], latin) == c;
          }
        }
      }
    }
  }

  /** The characters of `s` that belong to some token class, in order. */
  function WordChars(s: string, latin: bool): string
  {
    if s == [] then []
    else (if ClassOf(s[0], latin) != Gap then [s[0]] else []) + WordChars(s[1..], latin)
  }

  /** All tokens, joined together. */
  function Concat(ts: seq<string>): string
  {
    if ts == [] then [] else ts[0] + Concat(ts[1..])
  }

  /** A leading run of word characters passes through unchanged. */
  lemma {:induction false} WordCharsOfPrefix(s: string, n: nat, latin: bool)
    requires n <= |s|
    requires forall i :: 0 <= i < n ==> ClassOf(s[i], latin) != Gap
    ensures WordChars(s, latin) == s[..n] + WordChars(s[n..], latin)
  {
    if n > 0 {
      var t := s[1..];
      forall i | 0 <= i < n - 1 ensures ClassOf(t[i], latin) != Gap {
        assert t[i] == s[i + 1];
      }
      WordCharsOfPrefix(t, n - 1, latin);
      assert WordChars(s, latin) == [s[0]] + WordChars(t, latin);
      assert t[n - 1..] == s[n..];
      assert [s[0]] + t[..n - 1] == s[..n];
      assert [s[0]] + (t[..n - 1] + WordChars(s[n..], latin)) == s[..n] + WordChars(s[n..], latin);
    }
  }

  /** The tokens cover the word characters of the text exactly: joined, they are the text
      with every other character removed. */
  lemma {:induction false} RunsCover(s: string, latin: bool)
    ensures Concat(Runs(s, latin)) == WordChars(s, latin)
    decreases |s|
  {
    if s != [] {
      var c := ClassOf(s[0], latin);
      if c == Gap {
        RunsCover(s[1..], latin);
      } else {
        var n := Span(s, c, latin);
        RunsCover(s[n..], latin);
        WordCharsOfPrefix(s, n, latin);
        assert ([s[..n]] + Runs(s[n..], latin))[1..] == Runs(s[n..], latin);
      }
    }
  }

  /** The number of positions where a run begins: a character of some class whose
      predecessor (`prev` for the first one) has a different class. */
  function RunStarts(s: string, prev: CharClass, latin: bool): nat
  {
    if s == [] then 0
    else
      var c := ClassOf(s[0], latin);
      (if c != Gap && c != prev then 1 else 0) + RunStarts(s[1..], c, latin)
  }

  lemma {:induction false} RunStartsAfterSpan(t: string, cls: CharClass, latin: bool)
    ensures RunStarts(t, cls, latin) == RunStarts(t[Span(t, cls, latin)..], Gap, latin)
  {
    if t != [] && ClassOf(t[0], latin) == cls {
      RunStartsAfterSpan(t[1..], cls, latin);
      assert t[1..][Span(t[1..], cls, latin)..] == t[Span(t, cls, latin)..];
    }
  }

  /** There is one token per place where a run of one class begins. */
  lemma {:induction false} RunsCount(s: string, latin: bool)
    ensures |Runs(s, latin)| == RunStarts(s, Gap, latin)
    decreases |s|
  {
    if s != [] {
      var c := ClassOf(s[0], latin);
      if c == Gap {
        RunsCount(s[1..], latin);
      } else {
        var n := Span(s, c, latin);
        RunStartsAfterSpan(s[1..], c, latin);
        assert s[1..][Span(s[1..], c, latin)..] == s[n..];
        RunsCount(s[n..], latin);
      }
    }
  }

  /** `s[a..b]` is a maximal run: non-empty, of one token class, and neither neighbour has
      that class. */
  ghost predicate IsRunAt(s: string, latin: bool, a: nat, b: nat)
  {
    && a < b <= |s|
    && ClassOf(s[a], latin) != Gap
    && (forall i :: a <= i < b ==> ClassOf(s[i], latin) == ClassOf(s[a], latin))
    && (a == 0 || ClassOf(s[a - 1], latin) != ClassOf(s[a], latin))
    && (b == |s| || ClassOf(s[b], latin) != ClassOf(s[a], latin))
  }

  /** Every character of `s[lo..hi]` belongs to no token class. */
  ghost predicate AllGap(s: string, latin: bool, lo: nat, hi: nat)
  {
    hi <= |s| && forall i :: lo <= i < hi ==> ClassOf(s[i], latin) == Gap
  }

  /** The `k`-th token of `r` is the maximal run `s[a[k]..b[k]]`, at or after `p`. */
  ghost predicate RunsLocated(s: string, latin: bool, p: nat, r: seq<string>, a: seq<nat>, b: seq<nat>)
  {
    && |a| == |r| && |b| == |r|
    && forall k :: 0 <= k < |r| ==>
         p <= a[k] < b[k] <= |s| && IsRunAt(s, latin, a[k], b[k]) && r[k] == s[a[k]..b[k]]
  }

  /** Runs `k` and `k + 1` are in increasing order with only characters of no class between. */
  ghost predicate GapsBetween(s: string, latin: bool, a: seq<nat>, b: seq<nat>)
    requires |a| == |b|
  {
    forall k :: 0 <= k < |a| - 1 ==> b[k] <= a[k + 1] && AllGap(s, latin, b[k], a[k + 1])
  }

  /** Only characters of no class lie before the first run and after the last. */
  ghost predicate GapsOutside(s: string, latin: bool, p: nat, a: seq<nat>, b: seq<nat>)
    requires |a| == |b|
  {
    if |a| == 0 then AllGap(s, latin, p, |s|)
    else AllGap(s, latin, p, a[0]) && AllGap(s, latin, b[|a| - 1], |s|)
  }

  /** `r` is the list of maximal runs of `s` from position `p` on: the `k`-th token is
      `s[a[k]..b[k]]`, a maximal run, the runs come in increasing order, and only characters
      of no class lie before, between and after them. */
  ghost predicate MaximalRuns(s: string, latin: bool, p: nat, r: seq<string>, a: seq<nat>, b: seq<nat>)
  {
    RunsLocated(s, latin, p, r, a, b) && GapsBetween(s, latin, a, b) && GapsOutside(s, latin, p, a, b)
  }

  /** The runs found in `s[p..]`, located in `s`. A run may start at `p` only if `p` is not
      inside a longer run. */
  lemma {:induction false} RunsFrom(s: string, latin: bool, p: nat) returns (a: seq<nat>, b: seq<nat>)
    requires p <= |s|
    requires p == 0 || p == |s| || ClassOf(s[p], latin) == Gap || ClassOf(s[p - 1], latin) != ClassOf(s[p], latin)
    ensures MaximalRuns(s, latin, p, Runs(s[p..], latin), a, b)
    decreases |s| - p
  {
    if p == |s| {
      a, b := [], [];
      assert s[p..] == [];
    } else if ClassOf(s[p], latin) == Gap {
      GapStep(s, latin, p);
      a, b := RunsFrom(s, latin, p + 1);
    } else {
      var e := RunAtStep(s, latin, p);
      var a', b' := RunsFrom(s, latin, e);
      a, b := [p] + a', [e] + b';
      RunsFromStep(s, latin, p, e, Runs(s[e..], latin), a', b');
    }
  }

  /** A character of no class at `p` is skipped. */
  lemma GapStep(s: string, latin: bool, p: nat)
    requires p < |s| && ClassOf(s[p], latin) == Gap
    ensures Runs(s[p..], latin) == Runs(s[p + 1..], latin)
    ensures forall r, a, b :: MaximalRuns(s, latin, p + 1, r, a, b) ==> MaximalRuns(s, latin, p, r, a, b)
  {
    assert s[p..][0] == s[p];
    assert s[p..][1..] == s[p + 1..];
  }

  /** A character of a token class at `p`, not continuing a run, starts the run `s[p..e]`. */
  lemma RunAtStep(s: string, latin: bool, p: nat) returns (e: nat)
    requires p < |s| && ClassOf(s[p], latin) != Gap
    requires p == 0 || ClassOf(s[p - 1], latin) != ClassOf(s[p], latin)
    ensures IsRunAt(s, latin, p, e)
    ensures Runs(s[p..], latin) == [s[p..e]] + Runs(s[e..], latin)
  {
    var t := s[p..];
    var c := ClassOf(s[p], latin);
    assert t[0] == s[p];
    var n := Span(t, c, latin);
    e := p + n;
    forall i | p <= i < e ensures ClassOf(s[i], latin) == c {
      assert t[i - p] == s[i];
    }
    if e < |s| {
      assert t[n] == s[e];
    }
    assert t[..n] == s[p..e];
    assert t[n..] == s[e..];
  }

  /** Putting the maximal run `s[p..e]` in front of the maximal runs from `e` on. */
  lemma RunsFromStep(s: string, latin: bool, p: nat, e: nat, r': seq<string>, a': seq<nat>, b': seq<nat>)
    requires IsRunAt(s, latin, p, e)
    requires MaximalRuns(s, latin, e, r', a', b')
    ensures MaximalRuns(s, latin, p, [s[p..e]] + r', [p] + a', [e] + b')
  {
    LocatedStep(s, latin, p, e, r', a', b');
    BetweenStep(s, latin, p, e, a', b');
    if |r'| > 0 {
      assert ([e] + b')[|r'|] == b'[|r'| - 1];
    }
  }

  lemma LocatedStep(s: string, latin: bool, p: nat, e: nat, r': seq<string>, a': seq<nat>, b': seq<nat>)
    requires IsRunAt(s, latin, p, e)
    requires RunsLocated(s, latin, e, r', a', b')
    ensures RunsLocated(s, latin, p, [s[p..e]] + r', [p] + a', [e] + b')
  {
    var r, a, b := [s[p..e]] + r', [p] + a', [e] + b';
    forall k | 0 <= k < |r|
      ensures p <= a[k] < b[k] <= |s| && IsRunAt(s, latin, a[k], b[k]) && r[k] == s[a[k]..b[k]]
    {
      if k > 0 {
        assert a[k] == a'[k - 1] && b[k] == b'[k - 1] && r[k] == r'[k - 1];
      }
    }
  }

  lemma BetweenStep(s: string, latin: bool, p: nat, e: nat, a': seq<nat>, b': seq<nat>)
    requires |a'| == |b'| && e <= |s|
    requires forall k :: 0 <= k < |a'| ==> e <= a'[k]
    requires GapsBetween(s, latin, a', b') && GapsOutside(s, latin, e, a', b')
    ensures GapsBetween(s, latin, [p] + a', [e] + b')
  {
    var a, b := [p] + a', [e] + b';
    forall k | 0 <= k < |a| - 1 ensures b[k] <= a[k + 1] && AllGap(s, latin, b[k], a[k + 1]) {
      if k > 0 {
        assert a[k + 1] == a'[k] && b[k] == b'[k - 1];
      } else {
        assert a[1] == a'[0];
      }
    }
  }

  /** The tokens are exactly the maximal runs of the text, in order: the `k`-th token is
      `s[a[k]..b[k]]`, the runs are increasing, each is of one class and cannot be extended on
      either side, and only characters of no class lie outside them. */
  lemma RunsMaximal(s: string, latin: bool)
    ensures exists a: seq<nat>, b: seq<nat> :: MaximalRuns(s, latin, 0, Runs(s, latin), a, b)
  {
    var a, b := RunsFrom(s, latin, 0);
    assert s[0..] == s;
  }

  /** The characters Python's `str.isspace()` accepts. */
  predicate IsSpace(c: char)
  {
    || '\t' <= c <= '\r'
    || '\U{1C}' <= c <= ' '
    || c == '\U{85}' || c == '\U{A0}' || c == '\U{1680}'
    || '\U{2000}' <= c <= '\U{200A}'
    || c == '\U{2028}' || c == '\U{2029}' || c == '\U{202F}' || c == '\U{205F}' || c == '\U{3000}'
  }

  /** `s` without its leading whitespace. */
  function TrimStart(s: string): string
  {
    if s != [] && IsSpace(s[0]) then TrimStart(s[1..]) else s
  }

  /** `s` without its trailing whitespace. */
  function TrimEnd(s: string): string
  {
    if s != [] && IsSpace(s[|s| - 1]) then TrimEnd(s[..|s| - 1]) else s
  }

  /** Trimming the start leaves a suffix, cuts off only whitespace, and stops at the first
      other character. */
  lemma {:induction false} TrimStartShape(s: string)
    ensures var r := TrimStart(s);
      && |r| <= |s| && r == s[|s| - |r|..]
      && (forall k :: 0 <= k < |s| - |r| ==> IsSpace(s[k]))
      && (r != [] ==> !IsSpace(r[0]))
  {
    if s != [] && IsSpace(s[0]) {
      TrimStartShape(s[1..]);
      var r := TrimStart(s[1..]);
      forall k | 1 <= k < |s| - |r| ensures IsSpace(s[k]) {
        assert s[1..][k - 1] == s[k];
      }
    }
  }

  /** Trimming the end leaves a prefix, cuts off only whitespace, and stops at the last other
      character. */
  lemma {:induction false} TrimEndShape(s: string)
    ensures var r := TrimEnd(s);
      && |r| <= |s| && r == s[..|r|]
      && (forall k :: |r| <= k < |s| ==> IsSpace(s[k]))
      && (r != [] ==> !IsSpace(r[|r| - 1]))
    decreases |s|
  {
    if s != [] && IsSpace(s[|s| - 1]) {
      var init := s[..|s| - 1];
      TrimEndShape(init);
      var r := TrimEnd(init);
      forall k | |r| <= k < |s| - 1 ensures IsSpace(s[k]) {
        assert init[k] == s[k];
      }
      assert r == init[..|r|] == s[..|r|];
    }
  }

  /** `r` is `s[i..i + |r|]`, and only whitespace lies before and after it. */
  predicate StrippedAt(s: string, r: string, i: nat)
  {
    && i + |r| <= |s| && r == s[i..i + |r|]
    && (forall k :: 0 <= k < i ==> IsSpace(s[k]))
    && (forall k :: i + |r| <= k < |s| ==> IsSpace(s[k]))
  }

  /** Python's `str.strip()`: the middle part of `s` that neither begins nor ends with
      whitespace, with only whitespace cut off on either side. */
  function Strip(s: string): (r: string)
    ensures exists i: nat :: StrippedAt(s, r, i)
    ensures r != [] ==> !IsSpace(r[0]) && !IsSpace(r[|r| - 1])
  {
    var t := TrimStart(s);
    var r := TrimEnd(t);
    TrimStartShape(s);
    TrimEndShape(t);
    var i := |s| - |t|;
    assert r == s[i..i + |r|];
    assert StrippedAt(s, r, i);
    r
  }

  /** The characters of the regex class `[.!?]`. */
  predicate IsSentenceMark(c: char)
  {
    c == '.' || c == '!' || c == '?'
  }

  function SentenceMarks(s: string): nat
  {
    if s == [] then 0 else (if IsSentenceMark(s[0]) then 1 else 0) + SentenceMarks(s[1..])
  }

  lemma {:induction false} SentenceMarksAppend(a: string, b: string)
    ensures SentenceMarks(a + b) == SentenceMarks(a) + SentenceMarks(b)
  {
    if a == [] {
      assert a + b == b;
    } else {
      assert (a + b)[1..] == a[1..] + b;
      SentenceMarksAppend(a[1..], b);
    }
  }

  /** `re.split(r'[.!?]', s)`: the pieces between sentence marks. */
  function SplitSentences(s: string): (r: seq<string>)
    ensures |r| == SentenceMarks(s) + 1
    ensures forall i :: 0 <= i < |r| ==> SentenceMarks(r[i]) == 0
  {
    if s == [] then [""]
    else
      var rest := SplitSentences(s[1..]);
      if IsSentenceMark(s[0]) then [""] + rest
      else
        assert SentenceMarks([s[0]] + rest[0]) == 0 by {
          SentenceMarksAppend([s[0]], rest[0]);
        }
        [[s[0]] + rest[0]] + rest[1..]
  }

  /** Stripping removes only whitespace, so it never changes the number of sentence marks. */
  lemma StripKeepsSentenceMarks(s: string)
    ensures SentenceMarks(Strip(s)) == SentenceMarks(s)
  {
    TrimStartKeepsMarks(s);
    TrimEndKeepsMarks(TrimStart(s));
  }

  lemma {:induction false} TrimStartKeepsMarks(s: string)
    ensures SentenceMarks(TrimStart(s)) == SentenceMarks(s)
  {
    if s != [] && IsSpace(s[0]) {
      TrimStartKeepsMarks(s[1..]);
    }
  }

  lemma {:induction false} TrimEndKeepsMarks(s: string)
    ensures SentenceMarks(TrimEnd(s)) == SentenceMarks(s)
    decreases |s|
  {
    if s != [] && IsSpace(s[|s| - 1]) {
      var init := s[..|s| - 1];
      TrimEndKeepsMarks(init);
      assert s == init + [s[|s| - 1]];
      SentenceMarksAppend(init, [s[|s| - 1]]);
    }
  }

  /** One character of the emoji pattern `[ㅋㅎ😀-🙏]`: the jamo ㅋ and ㅎ and the
      emoticons U+1F600 to U+1F64F. */
  predicate IsEmojiChar(c: char)
  {
    c == '\U{314B}' || c == '\U{314E}' || '\U{1F600}' <= c <= '\U{1F64F}'
  }

  /** Python's substring test `keyword in text`. */
  predicate Contains(text: string, keyword: string)
  {
    || (|keyword| <= |text| && text[..|keyword|] == keyword)
    || (text != [] && Contains(text[1..], keyword))
  }

  /** `keyword` occurs in `text` at position `i`. */
  predicate OccursAt(text: string, keyword: string, i: nat)
  {
    i + |keyword| <= |text| && text[i..i + |keyword|] == keyword
  }

  /** `keyword in text` holds exactly when `keyword` occurs in `text` at some position. */
  lemma {:induction false} ContainsAt(text: string, keyword: string)
    ensures Contains(text, keyword) <==> exists i: nat :: OccursAt(text, keyword, i)
    decreases |text|
  {
    var m := |keyword|;
    if text == [] {
      if keyword == [] {
        assert OccursAt(text, keyword, 0);
      }
    } else {
      ContainsAt(text[1..], keyword);
      if m <= |text| && text[..m] == keyword {
        assert OccursAt(text, keyword, 0);
      } else if Contains(text[1..], keyword) {
        var j: nat :| OccursAt(text[1..], keyword, j);
        assert text[1..][j..j + m] == text[j + 1..j + 1 + m];
        assert OccursAt(text, keyword, j + 1);
      }
      if exists i: nat :: OccursAt(text, keyword, i) {
        var i: nat :| OccursAt(text, keyword, i);
        if i == 0 {
          assert text[..m] == keyword;
        } else {
          assert text[1..][i - 1..i - 1 + m] == text[i..i + m];
          assert OccursAt(text[1..], keyword, i - 1);
        }
      }
    }
  }
}

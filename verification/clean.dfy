/**
 The text cleaner every extractor runs its output through: five literal entity
 substitutions in a fixed order, then every run of whitespace becomes a single
 space, then the ends are stripped. It is not full HTML entity decoding, and it
 is not idempotent.
 */
module Clean {
  import opened Strings

  /** The five substitutions, in the order the cleaner applies them. */
  function DecodeEntities(s: string): string {
    var s1 := Replace(s, "&amp;", "&");
    var s2 := Replace(s1, "&nbsp;", " ");
    var s3 := Replace(s2, "&#8211;", "-");
    var s4 := Replace(s3, "&#8217;", "'");
    Replace(s4, "&#038;", "&")
  }

  /** Positions `i` and `i + 1` of `s` both hold whitespace. */
  predicate SpacePairAt(s: string, i: int)
    requires 0 <= i < |s| - 1
  {
    IsSpace(s[i]) && IsSpace(s[i + 1])
  }

  /** Every space is a plain `' '` and no two spaces are adjacent. */
  predicate SingleSpaced(s: string) {
    && (forall i :: 0 <= i < |s| && IsSpace(s[i]) ==> s[i] == ' ')
    && (forall i :: 0 <= i < |s| - 1 ==> !SpacePairAt(s, i))
  }

  /** Prefixing one character keeps single spacing unless it makes a new pair of spaces. */
  lemma {:induction false} SingleSpacedCons(c: char, x: string)
    requires SingleSpaced(x)
    requires IsSpace(c) ==> c == ' ' && (x == [] || !IsSpace(x[0]))
    ensures SingleSpaced([c] + x)
  {
    var s := [c] + x;
    forall i | 0 <= i < |s| - 1
      ensures !SpacePairAt(s, i)
    {
      if i > 0 {
        assert s[i] == x[i - 1] && s[i + 1] == x[i];
        assert !SpacePairAt(x, i - 1);
      }
    }
  }

  /** The tail of single-spaced text is single-spaced, and a leading space is followed by a non-space. */
  lemma {:induction false} SingleSpacedTail(s: string)
    requires SingleSpaced(s) && s != []
    ensures SingleSpaced(s[1..])
    ensures IsSpace(s[0]) && |s| > 1 ==> !IsSpace(s[1])
  {
    var x := s[1..];
    forall i | 0 <= i < |x| - 1
      ensures !SpacePairAt(x, i)
    {
      assert !SpacePairAt(s, i + 1);
    }
    if |s| > 1 {
      assert !SpacePairAt(s, 0);
    }
  }

  /** `re.sub(r'\s+', ' ', s)`: each maximal run of whitespace becomes one space. */
  function SquashSpaces(s: string): (r: string)
    ensures SingleSpaced(r)
    ensures |s| == 0 <==> |r| == 0
    ensures |s| > 0 ==> r[0] == (if IsSpace(s[0]) then ' ' else s[0])
    decreases |s|
  {
    if s == [] then []
    else if IsSpace(s[0]) then
      var rest := SquashSpaces(LStrip(s));
      SingleSpacedCons(' ', rest);
      [' '] + rest
    else
      var rest := SquashSpaces(s[1..]);
      SingleSpacedCons(s[0], rest);
      [s[0]] + rest
  }

  /** Python's `clean_text`: falsy input gives `""`. */
  function CleanText(s: string): (r: string)
    ensures s == [] ==> r == []
    ensures SingleSpaced(r) && Trimmed(r)
  {
    if s == [] then []
    else
      var q := SquashSpaces(DecodeEntities(s));
      StripKeeps(q);
      Strip(q)
  }

  /** Stripping keeps single spacing and only keeps characters of the input. */
  lemma {:induction false} StripKeeps(q: string)
    ensures SingleSpaced(q) ==> SingleSpaced(Strip(q))
    ensures Trimmed(Strip(q))
    ensures forall i :: 0 <= i < |Strip(q)| ==> Strip(q)[i] in q
  {
    if SingleSpaced(q) {
      StripSingleSpaced(q);
    }
    StripChars(q);
    StripTrimmed(q);
  }

  lemma {:induction false} StripSingleSpaced(q: string)
    requires SingleSpaced(q)
    ensures SingleSpaced(Strip(q))
  {
    var off := StripSlice(q);
    SliceSingleSpaced(q, off, off + |Strip(q)|);
  }

  /** Every character of the stripped text is a character of the input. */
  lemma {:induction false} StripChars(q: string)
    ensures forall i :: 0 <= i < |Strip(q)| ==> Strip(q)[i] in q
  {
    var r := Strip(q);
    var off := StripSlice(q);
    forall i | 0 <= i < |r|
      ensures r[i] in q
    {
      assert r[i] == q[off + i];
    }
  }

  /** The stripped text is a contiguous slice of the input. */
  lemma {:induction false} StripSlice(q: string) returns (off: nat)
    ensures off + |Strip(q)| <= |q| && Strip(q) == q[off..off + |Strip(q)|]
  {
    var t := LStrip(q);
    off := |q| - |t|;
    var r := RStrip(t);
    assert r == t[..|r|];
    assert t == q[off..];
  }

  /** Stripped text neither starts nor ends with whitespace. */
  lemma {:induction false} StripTrimmed(q: string)
    ensures Trimmed(Strip(q))
  {
    var t := LStrip(q);
    var r := RStrip(t);
    if r != [] {
      assert r == t[..|r|];
      assert r[0] == t[0];
    }
  }

  /** Every slice of single-spaced text is single-spaced. */
  lemma {:induction false} SliceSingleSpaced(q: string, a: nat, b: nat)
    requires SingleSpaced(q) && a <= b <= |q|
    ensures SingleSpaced(q[a..b])
  {
    var r := q[a..b];
    forall i | 0 <= i < |r| - 1
      ensures !SpacePairAt(r, i)
    {
      assert !SpacePairAt(q, a + i);
    }
  }

  /** The maximal runs of non-whitespace characters of `s`, in order. */
  function Words(s: string): (ws: seq<string>)
    ensures forall k :: 0 <= k < |ws| ==> |ws[k]| > 0 && NoSpace(ws[k])
    decreases |s|
  {
    var t := LStrip(s);
    if t == [] then []
    else
      var w := TakeWord(t);
      [w] + Words(t[|w|..])
  }

  /** The longest prefix of `s` without whitespace. */
  function TakeWord(s: string): (w: string)
    ensures |w| <= |s| && w == s[..|w|] && NoSpace(w)
    ensures |w| < |s| ==> IsSpace(s[|w|])
    ensures |s| > 0 && !IsSpace(s[0]) ==> |w| > 0
    decreases |s|
  {
    if s == [] || IsSpace(s[0]) then [] else [s[0]] + TakeWord(s[1..])
  }

  lemma {:induction false} LStripIdempotent(s: string)
    ensures LStrip(LStrip(s)) == LStrip(s)
  {
  }

  lemma {:induction false} LStripSpaceCons(x: string)
    ensures LStrip([' '] + x) == LStrip(x)
  {
    assert ([' '] + x)[1..] == x;
  }

  /** Stripping trailing whitespace off `[a] + x` only reaches `a` when all of `x` goes. */
  lemma {:induction false} RStripCons(a: char, x: string)
    ensures RStrip([a] + x) == if RStrip(x) == [] && IsSpace(a) then [] else [a] + RStrip(x)
    decreases |x|
  {
    if |x| > 0 && IsSpace(x[|x| - 1]) {
      assert ([a] + x)[..|x|] == [a] + x[..|x| - 1];
      RStripCons(a, x[..|x| - 1]);
    }
  }

  /** Squashing commutes with stripping leading whitespace. */
  lemma {:induction false} SquashLStrip(t: string)
    ensures LStrip(SquashSpaces(t)) == SquashSpaces(LStrip(t))
  {
    if t != [] && IsSpace(t[0]) {
      LStripSpaceCons(SquashSpaces(LStrip(t)));
      LStripIdempotent(t);
    }
  }

  lemma {:induction false} JoinEmpty(ws: seq<string>, sep: string)
    requires |ws| > 0 && |ws[0]| > 0
    ensures Join(ws, sep) != []
  {
  }

  /** Words of a text that continues a word: the first word gains a character. */
  lemma {:induction false} WordsConsLetter(c: char, v: string)
    requires !IsSpace(c) && v != [] && !IsSpace(v[0])
    ensures Words([c] + v) == [[c] + Words(v)[0]] + Words(v)[1..]
  {
    var u := [c] + v;
    assert u[1..] == v;
    var wv := TakeWord(v);
    assert TakeWord(u) == [c] + wv;
    assert u[|TakeWord(u)|..] == v[|wv|..];
  }

  /** Words of a text whose first word is the single character `c`. */
  lemma {:induction false} WordsConsSingle(c: char, v: string)
    requires !IsSpace(c) && (v == [] || IsSpace(v[0]))
    ensures Words([c] + v) == [[c]] + Words(v)
  {
    var u := [c] + v;
    assert u[1..] == v;
    assert TakeWord(u) == [c];
    assert u[1..] == v;
  }

  /** For text that starts with a word, squashing and right-stripping joins its words with single spaces. */
  lemma {:induction false} SquashedWords(u: string)
    requires u == [] || !IsSpace(u[0])
    ensures RStrip(SquashSpaces(u)) == Join(Words(u), " ")
    decreases |u|
  {
    if u != [] {
      var c, v := u[0], u[1..];
      assert u == [c] + v;
      if v == [] {
        SquashedSingle(c);
      } else if !IsSpace(v[0]) {
        SquashedWords(v);
        SquashedLetter(c, v);
      } else {
        SquashedWords(LStrip(v));
        SquashedSpaceRun(c, v);
      }
    }
  }

  lemma {:induction false} SquashedSingle(c: char)
    requires !IsSpace(c)
    ensures RStrip(SquashSpaces([c])) == Join(Words([c]), " ")
  {
    assert SquashSpaces([c]) == [c];
    WordsConsSingle(c, []);
    assert [c] + [] == [c];
  }

  lemma {:induction false} SquashedLetter(c: char, v: string)
    requires !IsSpace(c) && v != [] && !IsSpace(v[0])
    requires RStrip(SquashSpaces(v)) == Join(Words(v), " ")
    ensures RStrip(SquashSpaces([c] + v)) == Join(Words([c] + v), " ")
  {
    assert ([c] + v)[1..] == v;
    assert SquashSpaces([c] + v) == [c] + SquashSpaces(v);
    RStripCons(c, SquashSpaces(v));
    WordsConsLetter(c, v);
    JoinHead(c, Words(v), " ");
  }

  lemma {:induction false} SquashedSpaceRun(c: char, v: string)
    requires !IsSpace(c) && v != [] && IsSpace(v[0])
    requires RStrip(SquashSpaces(LStrip(v))) == Join(Words(LStrip(v)), " ")
    ensures RStrip(SquashSpaces([c] + v)) == Join(Words([c] + v), " ")
  {
    var w := LStrip(v);
    var x := SquashSpaces(w);
    assert ([c] + v)[1..] == v;
    assert SquashSpaces([c] + v) == [c] + ([' '] + x);
    RStripLetterSpace(c, x);
    WordsConsSingle(c, v);
    LStripIdempotent(v);
    assert Words(v) == Words(w);
    JoinLetterWords(c, Words(w));
  }

  lemma {:induction false} RStripLetterSpace(c: char, x: string)
    requires !IsSpace(c)
    ensures RStrip([c] + ([' '] + x)) == if RStrip(x) == [] then [c] else [c] + ([' '] + RStrip(x))
  {
    RStripCons(c, [' '] + x);
    RStripCons(' ', x);
  }

  lemma {:induction false} JoinLetterWords(c: char, ws: seq<string>)
    requires forall k :: 0 <= k < |ws| ==> |ws[k]| > 0
    ensures Join([[c]] + ws, " ") == if Join(ws, " ") == [] then [c] else [c] + ([' '] + Join(ws, " "))
  {
    if ws != [] {
      JoinEmpty(ws, " ");
      JoinCons([c], ws, " ");
    }
  }

  /**
   The cleaner's result is the words of the entity-decoded text joined by single
   spaces: an independent statement of "collapse whitespace, then strip".
   */
  lemma {:induction false} CleanTextIsWords(s: string)
    requires s != []
    ensures CleanText(s) == Join(Words(DecodeEntities(s)), " ")
  {
    var d := DecodeEntities(s);
    SquashLStrip(d);
    SquashedWords(LStrip(d));
    LStripIdempotent(d);
  }

  /** A pattern with a character absent from the text leaves the text unchanged. */
  lemma {:induction false} ReplaceAbsent(s: string, pat: string, rep: string, k: nat)
    requires k < |pat| && pat[k] !in s
    ensures Replace(s, pat, rep) == s
  {
    NotContainsByChar(s, pat, k);
    ReplaceIsJoinSplit(s, pat, rep);
    SplitSingleton(s, pat);
  }

  /** Text without `&` is left alone by the entity substitutions. */
  lemma {:induction false} DecodeNoAmpersand(s: string)
    requires '&' !in s
    ensures DecodeEntities(s) == s
  {
    ReplaceAbsent(s, "&amp;", "&", 0);
    ReplaceAbsent(s, "&nbsp;", " ", 0);
    ReplaceAbsent(s, "&#8211;", "-", 0);
    ReplaceAbsent(s, "&#8217;", "'", 0);
    ReplaceAbsent(s, "&#038;", "&", 0);
  }

  /** Stripping leading whitespace off text that starts without it changes nothing. */
  lemma {:induction false} LStripNonSpace(x: string)
    requires x == [] || !IsSpace(x[0])
    ensures LStrip([' '] + x) == x
  {
    assert ([' '] + x)[1..] == x;
  }

  /** Squashing text that is already single-spaced changes nothing. */
  lemma {:induction false} SquashSingleSpaced(s: string)
    requires SingleSpaced(s)
    ensures SquashSpaces(s) == s
    decreases |s|
  {
    if s != [] {
      SingleSpacedTail(s);
      SquashSingleSpaced(s[1..]);
      if IsSpace(s[0]) {
        assert s[0] == ' ';
        assert LStrip(s) == s[1..] by {
          assert s == [' '] + s[1..];
          LStripNonSpace(s[1..]);
        }
      }
      assert s == [s[0]] + s[1..];
    }
  }

  /** Text `clean_text` leaves unchanged: single-spaced, trimmed and free of entities. */
  predicate IsClean(s: string) {
    SingleSpaced(s) && Trimmed(s) && '&' !in s
  }

  /** Every name in the list is non-empty and clean. */
  predicate AllClean(ps: seq<string>) {
    ps == [] || (ps[0] != [] && IsClean(ps[0]) && AllClean(ps[1..]))
  }

  lemma {:induction false} AllCleanAt(ps: seq<string>, i: nat)
    requires AllClean(ps) && i < |ps|
    ensures ps[i] != [] && IsClean(ps[i])
    decreases i
  {
    if i > 0 {
      AllCleanAt(ps[1..], i - 1);
    }
  }

  lemma {:induction false} AllCleanSuffix(ps: seq<string>, k: nat)
    requires AllClean(ps) && k <= |ps|
    ensures AllClean(ps[k..])
    decreases k
  {
    if k > 0 {
      AllCleanSuffix(ps[1..], k - 1);
      assert ps[1..][k - 1..] == ps[k..];
    }
  }

  /** Every clean name is trimmed and free of `&`. */
  lemma {:induction false} AllCleanTrimmed(ps: seq<string>)
    requires AllClean(ps)
    ensures forall i :: 0 <= i < |ps| ==> Trimmed(ps[i]) && '&' !in ps[i]
  {
    forall i | 0 <= i < |ps|
      ensures Trimmed(ps[i]) && '&' !in ps[i]
    {
      AllCleanAt(ps, i);
    }
  }

  /** Text that is already clean is its own cleaning. */
  lemma {:induction false} CleanTextFixed(s: string)
    requires IsClean(s)
    ensures CleanText(s) == s
  {
    if s != [] {
      DecodeNoAmpersand(s);
      SquashSingleSpaced(s);
    }
  }

  /**
   Cleaning is idempotent on text whose first cleaning left no `&` behind (an
   entity can only be produced out of an `&`, so nothing is decoded twice).
   */
  lemma {:induction false} CleanTextIdempotentWithoutAmpersand(s: string)
    requires '&' !in CleanText(s)
    ensures CleanText(CleanText(s)) == CleanText(s)
  {
    CleanTextFixed(CleanText(s));
  }

  /** Every character of the result is a plain space or a character of the entity-decoded input. */
  lemma {:induction false} CleanTextFrom(s: string)
    ensures forall i :: 0 <= i < |CleanText(s)| ==> CleanText(s)[i] == ' ' || CleanText(s)[i] in DecodeEntities(s)
  {
    if s != [] {
      var q := SquashSpaces(DecodeEntities(s));
      StripKeeps(q);
      SquashKeeps(DecodeEntities(s));
    }
  }

  /** Squashing only keeps characters of the input or adds plain spaces. */
  lemma {:induction false} SquashKeeps(s: string)
    ensures forall i :: 0 <= i < |SquashSpaces(s)| ==> SquashSpaces(s)[i] == ' ' || SquashSpaces(s)[i] in s
    decreases |s|
  {
    if s != [] {
      if IsSpace(s[0]) {
        var t := LStrip(s);
        SquashKeeps(t);
        KeepsFromSuffix(SquashSpaces(s), ' ', SquashSpaces(t), s, t);
      } else {
        var t := s[1..];
        SquashKeeps(t);
        KeepsFromSuffix(SquashSpaces(s), s[0], SquashSpaces(t), s, t);
      }
    }
  }

  /** A head that is a space or from `s`, followed by spaces and characters of a suffix of `s`. */
  lemma {:induction false} KeepsFromSuffix(r: string, h: char, rest: string, s: string, t: string)
    requires r == [h] + rest && (h == ' ' || h in s)
    requires forall i :: 0 <= i < |rest| ==> rest[i] == ' ' || rest[i] in t
    requires |t| <= |s| && t == s[|s| - |t|..]
    ensures forall i :: 0 <= i < |r| ==> r[i] == ' ' || r[i] in s
  {
    forall i | 0 < i < |r|
      ensures r[i] == ' ' || r[i] in s
    {
      assert r[i] == rest[i - 1];
      if r[i] in t {
        var j :| 0 <= j < |t| && t[j] == r[i];
        assert t[j] == s[|s| - |t| + j];
      }
    }
  }

  /** Cleaning text without `&` only keeps its characters or adds plain spaces. */
  lemma {:induction false} CleanTextChars(s: string, c: char)
    requires '&' !in s && c in CleanText(s)
    ensures c == ' ' || c in s
  {
    DecodeNoAmpersand(s);
    CleanTextFrom(s);
  }

  /** Text without `&` is only whitespace-normalized. */
  lemma {:induction false} CleanTextWithoutAmpersand(s: string)
    requires s != [] && '&' !in s
    ensures CleanText(s) == Strip(SquashSpaces(s))
  {
    DecodeNoAmpersand(s);
  }

  /** A text with a non-whitespace character cleans to a non-empty text. */
  lemma {:induction false} CleanTextNonEmpty(s: string, i: nat)
    requires i < |s| && !IsSpace(s[i]) && '&' !in s
    ensures CleanText(s) != []
  {
    CleanTextIsWords(s);
    DecodeNoAmpersand(s);
    WordsNonEmpty(s, i);
  }

  lemma {:induction false} WordsNonEmpty(s: string, i: nat)
    requires i < |s| && !IsSpace(s[i])
    ensures Words(s) != []
  {
  }

  /** A text with something besides whitespace and no `&` never cleans to `""`. */
  lemma {:induction false} CleanTextNonBlank(p: string)
    requires '&' !in p && Strip(p) != []
    ensures CleanText(p) != []
  {
    StripKeeps(p);
    var i :| 0 <= i < |p| && p[i] == Strip(p)[0];
    CleanTextNonEmpty(p, i);
  }

  /** A clean name after one leading space (the piece after ", ") cleans back to the name. */
  lemma {:induction false} CleanLeadingSpace(n: string)
    requires n != [] && IsClean(n)
    ensures CleanText([' '] + n) == n
  {
    var u := [' '] + n;
    CleanTextWithoutAmpersand(u);
    assert u[1..] == n;
    assert LStrip(u) == n;
    SquashSingleSpaced(n);
    assert SquashSpaces(u) == [' '] + n;
    StripPadded(n, " ");
  }

  /** "&amp;amp;" loses one "amp;" per cleaning: the cleaner is not idempotent. */
  lemma {:induction false} CleanTextNotIdempotent()
    ensures CleanText("&amp;amp;") == "&amp;"
    ensures CleanText(CleanText("&amp;amp;")) == "&"
  {
    AmpersandOnce();
    AmpersandTwice();
  }

  lemma {:induction false} AmpersandOnce()
    ensures CleanText("&amp;amp;") == "&amp;"
  {
    DecodeAmpAmp();
    AmpEntityClean();
    CleanOfDecoded("&amp;amp;");
  }

  lemma {:induction false} AmpersandTwice()
    ensures CleanText("&amp;") == "&"
  {
    DecodeAmp();
    AmpClean();
    CleanOfDecoded("&amp;");
  }

  /** When the decoded text is already single-spaced and trimmed, cleaning is decoding. */
  lemma {:induction false} CleanOfDecoded(s: string)
    requires s != [] && SingleSpaced(DecodeEntities(s)) && Trimmed(DecodeEntities(s))
    ensures CleanText(s) == DecodeEntities(s)
  {
    var d := DecodeEntities(s);
    SquashSingleSpaced(d);
    StripPadded(d, []);
    assert d + [] == d;
  }

  /** The four substitutions after the first leave the given text alone. */
  lemma {:induction false} OtherEntitiesAbsent(s: string)
    requires '#' !in s && 'n' !in s
    ensures Replace(Replace(Replace(Replace(s, "&nbsp;", " "), "&#8211;", "-"), "&#8217;", "'"), "&#038;", "&") == s
  {
    ReplaceAbsent(s, "&nbsp;", " ", 1);
    ReplaceAbsent(s, "&#8211;", "-", 1);
    ReplaceAbsent(s, "&#8217;", "'", 1);
    ReplaceAbsent(s, "&#038;", "&", 1);
  }

  lemma {:induction false} DecodeAmpAmp()
    ensures DecodeEntities("&amp;amp;") == "&amp;"
  {
    FirstAmpAmp();
    OtherEntitiesAbsent("&amp;");
  }

  lemma {:induction false} FirstAmpAmp()
    ensures Replace("&amp;amp;", "&amp;", "&") == "&amp;"
  {
    ReplaceAtStart("&amp;", "amp;", "&");
    ReplaceAbsent("amp;", "&amp;", "&", 0);
    assert "&amp;amp;" == "&amp;" + "amp;";
  }

  lemma {:induction false} DecodeAmp()
    ensures DecodeEntities("&amp;") == "&"
  {
    FirstAmp();
    OtherEntitiesAbsent("&");
  }

  lemma {:induction false} FirstAmp()
    ensures Replace("&amp;", "&amp;", "&") == "&"
  {
    ReplaceAtStart("&amp;", "", "&");
    assert "&amp;" == "&amp;" + "";
  }

  lemma {:induction false} AmpEntityClean()
    ensures SingleSpaced("&amp;") && Trimmed("&amp;")
  {
  }

  lemma {:induction false} AmpClean()
    ensures SingleSpaced("&") && Trimmed("&")
  {
  }
}

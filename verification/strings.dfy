/** Optional values: the model of a record field that may be absent. */
module Options {
  datatype Option<+T> = None | Some(value: T)
}

/**
 The Python `str` operations the scraper is built from, over `seq<char>`:
 the `in` test, `find`, `split`, `join`, `replace`, `strip` and `isdigit`.
 Every separator the scraper uses is a fixed non-empty literal, so the
 operations here require a non-empty separator.
 */
module Strings {
  import opened Options

  /** The characters Python's `\s` and `str.strip()` treat as whitespace, restricted to ASCII. */
  predicate IsSpace(c: char) {
    c == ' ' || c == '\t' || c == '\n' || c == '\r' || c == '\U{B}' || c == '\U{C}'
  }

  predicate IsDigit(c: char) {
    '0' <= c <= '9'
  }

  /** Python's `s.isdigit()`: non-empty and made of digits only. */
  predicate IsDigits(s: string) {
    |s| > 0 && forall i :: 0 <= i < |s| ==> IsDigit(s[i])
  }

  predicate NoSpace(s: string) {
    forall i :: 0 <= i < |s| ==> !IsSpace(s[i])
  }

  predicate AllSpace(s: string) {
    forall i :: 0 <= i < |s| ==> IsSpace(s[i])
  }

  /** No whitespace at either end. */
  predicate Trimmed(s: string) {
    s == [] || (!IsSpace(s[0]) && !IsSpace(s[|s| - 1]))
  }

  /** `sub` occurs in `s` starting at index `i`. */
  predicate OccursAt(s: string, sub: string, i: int) {
    0 <= i && i + |sub| <= |s| && s[i..i + |sub|] == sub
  }

  /** Python's `s.find(sub)`: the leftmost occurrence of `sub` in `s`. */
  function Find(s: string, sub: string): (r: Option<nat>)
    requires |sub| > 0
    ensures r.Some? ==> OccursAt(s, sub, r.value)
    ensures r.Some? ==> forall j :: 0 <= j < r.value ==> !OccursAt(s, sub, j)
    ensures r.None? ==> forall j :: !OccursAt(s, sub, j)
    decreases |s|
  {
    if |s| < |sub| then None
    else if s[..|sub|] == sub then Some(0)
    else
      match Find(s[1..], sub)
      case None => ShiftOccurs(s, sub); None
      case Some(i) => ShiftOccurs(s, sub); Some(i + 1)
  }

  /** An occurrence in `s` after its first character is an occurrence in `s[1..]`, one place earlier. */
  lemma {:induction false} ShiftOccurs(s: string, sub: string)
    requires |s| > 0
    ensures forall j :: 1 <= j ==> (OccursAt(s, sub, j) <==> OccursAt(s[1..], sub, j - 1))
  {
    forall j | 1 <= j
      ensures OccursAt(s, sub, j) <==> OccursAt(s[1..], sub, j - 1)
    {
      if j + |sub| <= |s| {
        assert s[1..][j - 1..j - 1 + |sub|] == s[j..j + |sub|];
      }
    }
  }

  /** Find is determined by the leftmost occurrence. */
  lemma {:induction false} FindIs(s: string, sub: string, i: nat)
    requires |sub| > 0 && OccursAt(s, sub, i)
    requires forall j :: 0 <= j < i ==> !OccursAt(s, sub, j)
    ensures Find(s, sub) == Some(i)
  {
  }

  /** A string that lacks one character of `sub` does not contain `sub`. */
  lemma {:induction false} NotContainsByChar(s: string, sub: string, k: nat)
    requires k < |sub| && sub[k] !in s
    ensures !Contains(s, sub)
  {
  }

  /** Python's `sub in s`. */
  predicate Contains(s: string, sub: string)
    requires |sub| > 0
  {
    Find(s, sub).Some?
  }

  /** `sub in s` holds exactly when `sub` occurs somewhere in `s`. */
  lemma {:induction false} ContainsIff(s: string, sub: string)
    requires |sub| > 0
    ensures Contains(s, sub) <==> exists i :: OccursAt(s, sub, i)
  {
    if Contains(s, sub) {
      assert OccursAt(s, sub, Find(s, sub).value);
    }
  }

  lemma {:induction false} ContainsWitness(s: string, sub: string, i: int)
    requires |sub| > 0 && OccursAt(s, sub, i)
    ensures Contains(s, sub)
  {
  }

  /** Python's `s.split(sep)`: the pieces between the leftmost, non-overlapping occurrences of `sep`. */
  function Split(s: string, sep: string): (parts: seq<string>)
    requires |sep| > 0
    ensures |parts| >= 1
    decreases |s|
  {
    match Find(s, sep)
    case None => [s]
    case Some(i) => [s[..i]] + Split(s[i + |sep|..], sep)
  }

  /** Python's `sep.join(parts)`. */
  function Join(parts: seq<string>, sep: string): string
  {
    if |parts| == 0 then []
    else if |parts| == 1 then parts[0]
    else parts[0] + sep + Join(parts[1..], sep)
  }

  function Last<T>(xs: seq<T>): T
    requires |xs| > 0
  {
    xs[|xs| - 1]
  }

  /**
   Python's `s.replace(pat, rep)`, which is also what `re.sub` does with a pattern
   that has no special characters: every leftmost, non-overlapping occurrence of
   `pat` is replaced, scanning left to right; replacement text is not rescanned.
   */
  function Replace(s: string, pat: string, rep: string): string
    requires |pat| > 0
    decreases |s|
  {
    if |s| < |pat| then s
    else if s[..|pat|] == pat then rep + Replace(s[|pat|..], pat, rep)
    else [s[0]] + Replace(s[1..], pat, rep)
  }

  lemma {:induction false} JoinCons(a: string, t: seq<string>, sep: string)
    requires |t| >= 1
    ensures Join([a] + t, sep) == a + sep + Join(t, sep)
  {
    assert ([a] + t)[1..] == t;
  }

  lemma {:induction false} JoinHead(c: char, t: seq<string>, sep: string)
    requires |t| >= 1
    ensures Join([[c] + t[0]] + t[1..], sep) == [c] + Join(t, sep)
  {
    if |t| > 1 {
      assert ([[c] + t[0]] + t[1..])[1..] == t[1..];
    }
  }

  /** Splitting and joining back with the same separator gives the input again. */
  lemma {:induction false} SplitJoin(s: string, sep: string)
    requires |sep| > 0
    ensures Join(Split(s, sep), sep) == s
    decreases |s|
  {
    var r := Find(s, sep);
    if r.Some? {
      var i := r.value;
      var rest := s[i + |sep|..];
      var tail := Split(rest, sep);
      assert Split(s, sep) == [s[..i]] + tail;
      SplitJoin(rest, sep);
      JoinCons(s[..i], tail, sep);
      assert s[i..i + |sep|] == sep;
      assert s == s[..i] + s[i..i + |sep|] + rest;
    }
  }

  /** No piece of a split contains the separator. */
  lemma {:induction false} SplitPiecesFree(s: string, sep: string)
    requires |sep| > 0
    ensures forall k :: 0 <= k < |Split(s, sep)| ==> !Contains(Split(s, sep)[k], sep)
    decreases |s|
  {
    match Find(s, sep)
    case None =>
    case Some(i) =>
      var rest := s[i + |sep|..];
      SplitPiecesFree(rest, sep);
      var head := s[..i];
      if Contains(head, sep) {
        var j := Find(head, sep).value;
        assert head[j..j + |sep|] == s[j..j + |sep|];
        assert OccursAt(s, sep, j);
      }
      assert Split(s, sep) == [head] + Split(rest, sep);
  }

  /** A split gives a single piece exactly when the separator is absent, and the piece is then the input. */
  lemma {:induction false} SplitSingleton(s: string, sep: string)
    requires |sep| > 0
    ensures |Split(s, sep)| == 1 <==> !Contains(s, sep)
    ensures !Contains(s, sep) ==> Split(s, sep) == [s]
  {
    if Contains(s, sep) {
      var i := Find(s, sep).value;
      assert |Split(s, sep)| == 1 + |Split(s[i + |sep|..], sep)|;
    }
  }

  /**
   No occurrence of `sep` starts inside `p`, not even one that runs into a `sep`
   written right after it: in `p + sep + q` the first `sep` is the one after `p`.
   */
  predicate FirstCutAfter(p: string, sep: string)
    requires |sep| > 0
  {
    !Contains(p + sep[..|sep| - 1], sep)
  }

  /** When `sep` is first found right after `p`, the first piece of `p + sep + q` is `p`. */
  lemma {:induction false} SplitPrefix(p: string, sep: string, q: string)
    requires |sep| > 0 && FirstCutAfter(p, sep)
    ensures Split(p + sep + q, sep) == [p] + Split(q, sep)
  {
    var s := p + sep + q;
    var t := p + sep[..|sep| - 1];
    assert s[|p|..|p| + |sep|] == sep;
    assert t == s[..|t|];
    forall j | 0 <= j < |p|
      ensures !OccursAt(s, sep, j)
    {
      if OccursAt(s, sep, j) {
        OccursInPrefix(s, |t|, sep, j);
        ContainsWitness(t, sep, j);
      }
    }
    FindIs(s, sep, |p|);
    assert s[..|p|] == p && s[|p| + |sep|..] == q;
  }

  /** An occurrence that ends within a prefix is an occurrence in that prefix. */
  lemma {:induction false} OccursInPrefix(s: string, n: nat, sub: string, j: nat)
    requires n <= |s| && OccursAt(s, sub, j) && j + |sub| <= n
    ensures OccursAt(s[..n], sub, j)
  {
    assert s[..n][j..j + |sub|] == s[j..j + |sub|];
  }

  /**
   The simple way to meet `SplitPrefix`: some character of `sep` occurs neither
   in `p` nor earlier in `sep` itself.
   */
  lemma {:induction false} SplitPrefixChar(p: string, sep: string, q: string, k: nat)
    requires k < |sep| && sep[k] !in p && sep[k] !in sep[..k]
    ensures Split(p + sep + q, sep) == [p] + Split(q, sep)
  {
    FirstCutByChar(p, sep, k);
    SplitPrefix(p, sep, q);
  }

  /** A character of `sep` that `p` lacks, and that does not occur earlier in `sep`, rules out an early cut. */
  lemma {:induction false} FirstCutByChar(p: string, sep: string, k: nat)
    requires k < |sep| && sep[k] !in p && sep[k] !in sep[..k]
    ensures FirstCutAfter(p, sep)
  {
  }

  /** An occurrence inside a prefix of `s` is an occurrence in `s`. */
  lemma {:induction false} OccursInLonger(h: string, s: string, sub: string, j: int)
    requires |h| <= |s| && h == s[..|h|] && OccursAt(h, sub, j)
    ensures OccursAt(s, sub, j)
  {
    assert s[j..j + |sub|] == h[j..j + |sub|];
  }

  /**
   The last piece of a split that cuts at least once: `s` is some `head`, then
   the separator, then the last piece, and splitting `head` gives the other pieces.
   */
  lemma {:induction false} SplitLast(s: string, sep: string) returns (head: string)
    requires |sep| > 0 && Contains(s, sep)
    ensures s == head + sep + Last(Split(s, sep))
    ensures Split(s, sep) == Split(head, sep) + [Last(Split(s, sep))]
    decreases |s|
  {
    var i := Find(s, sep).value;
    var pre, t := s[..i], s[i + |sep|..];
    FirstCutAtFind(s, sep, i);
    SplitPrefix(pre, sep, t);
    if !Contains(t, sep) {
      SplitSingleton(t, sep);
      NoEarlyCut(pre, s, sep, i);
      SplitSingleton(pre, sep);
      head := pre;
    } else {
      var h := SplitLast(t, sep);
      var raw := Last(Split(t, sep));
      head := pre + sep + h;
      SplitPrefix(pre, sep, h);
      ConsSnoc(pre, Split(h, sep), raw);
      ConcatFive(pre, sep, h, sep, raw);
    }
  }

  lemma {:induction false} ConsSnoc(x: string, ys: seq<string>, z: string)
    ensures [x] + (ys + [z]) == ([x] + ys) + [z]
    ensures Last([x] + (ys + [z])) == z
  {
  }

  lemma {:induction false} ConcatFive(a: string, b: string, c: string, d: string, e: string)
    ensures a + b + (c + d + e) == (a + b + c) + d + e
  {
  }

  /** The text before the first occurrence of `sep`, followed by `sep`, is first cut right there. */
  lemma {:induction false} FirstCutAtFind(s: string, sep: string, i: nat)
    requires |sep| > 0 && Find(s, sep) == Some(i)
    ensures s == s[..i] + sep + s[i + |sep|..]
    ensures FirstCutAfter(s[..i], sep)
  {
    assert s[i..i + |sep|] == sep;
    assert s == s[..i] + s[i..i + |sep|] + s[i + |sep|..];
    var t := s[..i] + sep[..|sep| - 1];
    assert t == s[..|t|];
    if Contains(t, sep) {
      var j := Find(t, sep).value;
      OccursInLonger(t, s, sep, j);
    }
  }

  /** The text before the first occurrence of `sep` in `s` holds no `sep`. */
  lemma {:induction false} NoEarlyCut(head: string, s: string, sep: string, i: nat)
    requires |sep| > 0 && Find(s, sep) == Some(i) && head == s[..i]
    ensures !Contains(head, sep)
  {
    if Contains(head, sep) {
      var j := Find(head, sep).value;
      OccursInLonger(head, s, sep, j);
    }
  }

  /** `c in s` is the same test as `[c] in s`. */
  lemma {:induction false} ContainsChar(s: string, c: char)
    ensures Contains(s, [c]) <==> c in s
  {
    if c in s {
      var i :| 0 <= i < |s| && s[i] == c;
      assert s[i..i + 1] == [c];
      ContainsWitness(s, [c], i);
    }
    if Contains(s, [c]) {
      var i := Find(s, [c]).value;
      assert s[i..i + 1][0] == s[i];
    }
  }

  /** Every character of every piece of a split comes from the input. */
  lemma {:induction false} SplitPiecesChars(s: string, sep: string)
    requires |sep| > 0
    ensures forall k, c :: 0 <= k < |Split(s, sep)| && c in Split(s, sep)[k] ==> c in s
    decreases |s|
  {
    var r := Find(s, sep);
    if r.Some? {
      var i := r.value;
      var rest := s[i + |sep|..];
      SplitPiecesChars(rest, sep);
      assert Split(s, sep) == [s[..i]] + Split(rest, sep);
      forall k, c | 0 <= k < |Split(s, sep)| && c in Split(s, sep)[k]
        ensures c in s
      {
        if k == 0 {
          assert c in s[..i];
        } else {
          assert c in rest;
        }
      }
    }
  }

  /** Every character of a join comes from a part or from the separator. */
  lemma {:induction false} JoinChars(parts: seq<string>, sep: string, c: char)
    requires c in Join(parts, sep)
    ensures c in sep || exists k :: 0 <= k < |parts| && c in parts[k]
    decreases |parts|
  {
    if |parts| > 1 {
      var j := Join(parts[1..], sep);
      if c !in parts[0] && c !in sep {
        JoinChars(parts[1..], sep, c);
        var k :| 0 <= k < |parts[1..]| && c in parts[1..][k];
        assert parts[1..][k] == parts[k + 1];
      }
    }
  }

  /** A head without the separator's first character joins onto the first piece of a split. */
  lemma {:induction false} SplitFreeHead(x: string, q: string, sep: string)
    requires |sep| > 0 && sep[0] !in x
    ensures |Split(x + q, sep)| == |Split(q, sep)|
    ensures Split(x + q, sep)[0] == x + Split(q, sep)[0]
    ensures Split(x + q, sep)[1..] == Split(q, sep)[1..]
    decreases |x|
  {
    if x == [] {
      assert x + q == q;
      assert x + Split(q, sep)[0] == Split(q, sep)[0];
    } else {
      SplitFreeHead(x[1..], q, sep);
      SplitFreeHeadStep(x, q, sep);
    }
  }

  lemma {:induction false} SplitFreeHeadStep(x: string, q: string, sep: string)
    requires |sep| > 0 && |x| > 0 && sep[0] != x[0]
    requires |Split(x[1..] + q, sep)| == |Split(q, sep)|
    requires Split(x[1..] + q, sep)[0] == x[1..] + Split(q, sep)[0]
    requires Split(x[1..] + q, sep)[1..] == Split(q, sep)[1..]
    ensures |Split(x + q, sep)| == |Split(q, sep)|
    ensures Split(x + q, sep)[0] == x + Split(q, sep)[0]
    ensures Split(x + q, sep)[1..] == Split(q, sep)[1..]
  {
    var s := x + q;
    assert s[1..] == x[1..] + q;
    HeadDiffers(x, q, sep);
    SplitConsParts(s, sep);
    assert [x[0]] + (x[1..] + Split(q, sep)[0]) == x + Split(q, sep)[0];
  }

  /** `SplitCons` piece by piece: the same count, a longer first piece, the same rest. */
  lemma {:induction false} SplitConsParts(s: string, sep: string)
    requires |sep| > 0 && |s| > 0 && !OccursAt(s, sep, 0)
    ensures |Split(s, sep)| == |Split(s[1..], sep)|
    ensures Split(s, sep)[0] == [s[0]] + Split(s[1..], sep)[0]
    ensures Split(s, sep)[1..] == Split(s[1..], sep)[1..]
  {
    SplitCons(s, sep);
  }

  lemma {:induction false} HeadDiffers(x: string, q: string, sep: string)
    requires |sep| > 0 && |x| > 0 && sep[0] != x[0]
    ensures !OccursAt(x + q, sep, 0)
  {
    var s := x + q;
    if |sep| <= |s| {
      assert s[..|sep|][0] == s[0] == x[0];
    }
  }

  /** When `s` does not start with `sep`, its split is that of `s[1..]` with `s[0]` put back on the first piece. */
  lemma {:induction false} SplitCons(s: string, sep: string)
    requires |sep| > 0 && |s| > 0 && !OccursAt(s, sep, 0)
    ensures Split(s, sep) == [[s[0]] + Split(s[1..], sep)[0]] + Split(s[1..], sep)[1..]
  {
    FindCons(s, sep);
    if Find(s[1..], sep).None? {
      SplitConsNone(s, sep);
    } else {
      SplitConsSome(s, sep, Find(s[1..], sep).value);
    }
  }

  lemma {:induction false} SplitConsNone(s: string, sep: string)
    requires |sep| > 0 && |s| > 0 && Find(s, sep).None? && Find(s[1..], sep).None?
    ensures Split(s, sep) == [[s[0]] + Split(s[1..], sep)[0]] + Split(s[1..], sep)[1..]
  {
    var t := s[1..];
    assert Split(s, sep) == [s];
    assert Split(t, sep) == [t];
    assert [s[0]] + t == s;
  }

  lemma {:induction false} SplitConsSome(s: string, sep: string, i: nat)
    requires |sep| > 0 && |s| > 0 && Find(s, sep) == Some(i + 1) && Find(s[1..], sep) == Some(i)
    ensures Split(s, sep) == [[s[0]] + Split(s[1..], sep)[0]] + Split(s[1..], sep)[1..]
  {
    var t := s[1..];
    var r := Split(s[i + 1 + |sep|..], sep);
    assert t[i + |sep|..] == s[i + 1 + |sep|..];
    assert Split(t, sep) == [t[..i]] + r;
    assert [s[0]] + t[..i] == s[..i + 1];
    assert Split(s, sep) == [s[..i + 1]] + r;
  }

  /** When `s` does not start with `sep`, the first occurrence in `s` is one past that in `s[1..]`. */
  lemma {:induction false} FindCons(s: string, sep: string)
    requires |sep| > 0 && |s| > 0 && !OccursAt(s, sep, 0)
    ensures Find(s[1..], sep).None? ==> Find(s, sep).None?
    ensures Find(s[1..], sep).Some? ==> Find(s, sep) == Some(Find(s[1..], sep).value + 1)
  {
    if |s| < |sep| {
      assert Find(s[1..], sep).None?;
    }
  }

  /** Replacing is splitting on the pattern and joining with the replacement. */
  lemma {:induction false} ReplaceIsJoinSplit(s: string, pat: string, rep: string)
    requires |pat| > 0
    ensures Replace(s, pat, rep) == Join(Split(s, pat), rep)
    decreases |s|
  {
    if |s| < |pat| {
      assert Find(s, pat) == None;
    } else if s[..|pat|] == pat {
      ReplaceIsJoinSplit(s[|pat|..], pat, rep);
      assert Find(s, pat) == Some(0);
      JoinCons([], Split(s[|pat|..], pat), rep);
    } else {
      ReplaceIsJoinSplit(s[1..], pat, rep);
      SplitCons(s, pat);
      JoinHead(s[0], Split(s[1..], pat), rep);
    }
  }

  /** A prefix without the pattern's first character passes through a replacement untouched. */
  lemma {:induction false} ReplaceFreePrefix(p: string, q: string, pat: string, rep: string)
    requires |pat| > 0 && pat[0] !in p
    ensures Replace(p + q, pat, rep) == p + Replace(q, pat, rep)
    decreases |p|
  {
    if p != [] {
      var s := p + q;
      assert s[1..] == p[1..] + q;
      ReplaceFreePrefix(p[1..], q, pat, rep);
      if |s| >= |pat| {
        assert s[..|pat|][0] == p[0] != pat[0];
        calc {
          Replace(s, pat, rep);
          [p[0]] + Replace(p[1..] + q, pat, rep);
          [p[0]] + (p[1..] + Replace(q, pat, rep));
          { assert p == [p[0]] + p[1..]; }
          p + Replace(q, pat, rep);
        }
      } else {
        assert Replace(q, pat, rep) == q;
      }
    } else {
      assert p + q == q;
    }
  }

  /** An occurrence at the very start is replaced. */
  lemma {:induction false} ReplaceAtStart(pat: string, q: string, rep: string)
    requires |pat| > 0
    ensures Replace(pat + q, pat, rep) == rep + Replace(q, pat, rep)
  {
    assert (pat + q)[..|pat|] == pat;
    assert (pat + q)[|pat|..] == q;
  }

  /** Python's `s.lstrip()`. */
  function LStrip(s: string): (r: string)
    ensures |r| <= |s| && r == s[|s| - |r|..]
    ensures AllSpace(s[..|s| - |r|])
    ensures r == [] || !IsSpace(r[0])
    decreases |s|
  {
    if |s| > 0 && IsSpace(s[0]) then
      var r := LStrip(s[1..]);
      LStripStep(s, r);
      r
    else s
  }

  /** One step of `lstrip`: what the shorter text keeps, the longer keeps too. */
  lemma {:induction false} LStripStep(s: string, r: string)
    requires |s| > 0 && IsSpace(s[0])
    requires |r| <= |s| - 1 && r == s[1..][|s| - 1 - |r|..] && AllSpace(s[1..][..|s| - 1 - |r|])
    ensures r == s[|s| - |r|..] && AllSpace(s[..|s| - |r|])
  {
    var t := s[1..];
    assert s[..|s| - |r|] == [s[0]] + t[..|s| - 1 - |r|];
  }

  /** Python's `s.rstrip()`. */
  function RStrip(s: string): (r: string)
    ensures |r| <= |s| && r == s[..|r|]
    ensures AllSpace(s[|r|..])
    ensures r == [] || !IsSpace(r[|r| - 1])
    decreases |s|
  {
    if |s| > 0 && IsSpace(s[|s| - 1]) then
      var r := RStrip(s[..|s| - 1]);
      RStripStep(s, r);
      r
    else s
  }

  /** One step of `rstrip`: what the shorter text keeps, the longer keeps too. */
  lemma {:induction false} RStripStep(s: string, r: string)
    requires |s| > 0 && IsSpace(s[|s| - 1])
    requires |r| <= |s| - 1 && r == s[..|s| - 1][..|r|] && AllSpace(s[..|s| - 1][|r|..])
    ensures r == s[..|r|] && AllSpace(s[|r|..])
  {
    var t := s[..|s| - 1];
    assert s[|r|..] == t[|r|..] + [s[|s| - 1]];
  }

  /** Python's `s.strip()`. */
  function Strip(s: string): string {
    RStrip(LStrip(s))
  }

  /** Stripping a trimmed text followed by whitespace gives the text. */
  lemma {:induction false} StripPadded(n: string, pad: string)
    requires Trimmed(n) && AllSpace(pad)
    ensures Strip(n + pad) == n
    ensures Strip(pad + n) == n
  {
    LStripSpaces(pad, n);
    RStripSpaces(n, pad);
    if n == [] {
      assert n + pad == pad && pad + n == pad;
      LStripSpaces(pad, []);
      assert pad + [] == pad;
    }
  }

  /** A leading run of whitespace is all that `lstrip` removes in front of a non-space. */
  lemma {:induction false} LStripSpaces(pad: string, x: string)
    requires AllSpace(pad)
    ensures LStrip(pad + x) == LStrip(x)
    decreases |pad|
  {
    if pad != [] {
      assert (pad + x)[1..] == pad[1..] + x;
      LStripSpaces(pad[1..], x);
    } else {
      assert pad + x == x;
    }
  }

  /** A trailing run of whitespace is all that `rstrip` removes after a non-space. */
  lemma {:induction false} RStripSpaces(x: string, pad: string)
    requires AllSpace(pad)
    ensures RStrip(x + pad) == RStrip(x)
    decreases |pad|
  {
    if pad != [] {
      var n := |pad|;
      assert (x + pad)[..|x + pad| - 1] == x + pad[..n - 1];
      RStripSpaces(x, pad[..n - 1]);
    } else {
      assert x + pad == x;
    }
  }

  /** Stripping a text with whitespace in front is stripping the text. */
  lemma {:induction false} StripLeadingSpaces(pad: string, x: string)
    requires AllSpace(pad)
    ensures Strip(pad + x) == Strip(x)
  {
    LStripSpaces(pad, x);
  }

  /** A join of two or more parts ends with the separator and the last part. */
  lemma {:induction false} JoinSnoc(parts: seq<string>, sep: string)
    requires |parts| >= 2
    ensures Join(parts, sep) == Join(parts[..|parts| - 1], sep) + sep + Last(parts)
    decreases |parts|
  {
    if |parts| > 2 {
      var tail := parts[1..];
      JoinSnoc(tail, sep);
      assert tail[..|tail| - 1] == parts[..|parts| - 1][1..];
      assert Last(tail) == Last(parts);
      assert Join(parts, sep) == parts[0] + sep + Join(tail, sep);
      assert Join(parts[..|parts| - 1], sep) == parts[0] + sep + Join(tail[..|tail| - 1], sep);
    } else {
      assert parts[..1] == [parts[0]];
      assert parts[1..] == [parts[1]];
    }
  }

  /**
   Splitting names joined by a one-character separator padded with whitespace,
   and stripping each piece, gives the names back.
   */
  lemma {:induction false} StripSplitJoin(ns: seq<string>, pre: string, c: char, post: string)
    requires |ns| >= 1 && AllSpace(pre) && AllSpace(post) && !IsSpace(c)
    requires forall i :: 0 <= i < |ns| ==> Trimmed(ns[i]) && c !in ns[i]
    ensures StripsBack(Split(Join(ns, pre + [c] + post), [c]), ns)
    decreases |ns|
  {
    var sep := pre + [c] + post;
    if |ns| == 1 {
      assert Join(ns, sep) == ns[0];
      StripSplitSingle(ns[0], c);
    } else {
      var tail := ns[1..];
      StripSplitJoin(tail, pre, c, post);
      SplitJoinStep(ns, pre, c, post);
      StripPiecesStep(ns, Split(Join(ns, sep), [c]), Split(Join(tail, sep), [c]), pre, post);
    }
  }

  /** Stripping each of `parts` gives `ns`. */
  predicate StripsBack(parts: seq<string>, ns: seq<string>) {
    |parts| == |ns| && forall i :: 0 <= i < |ns| ==> Strip(parts[i]) == ns[i]
  }

  /** `sep` is whitespace around the one non-space character at index `k`. */
  predicate SpacedChar(sep: string, k: nat) {
    k < |sep| && !IsSpace(sep[k]) && forall i :: 0 <= i < |sep| && i != k ==> IsSpace(sep[i])
  }

  /** `StripSplitJoin` for a separator given whole. */
  lemma {:induction false} StripSplitJoinAt(ns: seq<string>, sep: string, k: nat)
    requires |ns| >= 1 && SpacedChar(sep, k)
    requires forall i :: 0 <= i < |ns| ==> Trimmed(ns[i]) && sep[k] !in ns[i]
    ensures StripsBack(Split(Join(ns, sep), [sep[k]]), ns)
  {
    var pre, post := sep[..k], sep[k + 1..];
    assert sep == pre + [sep[k]] + post;
    assert AllSpace(pre) by {
      forall i | 0 <= i < |pre|
        ensures IsSpace(pre[i])
      {
        assert pre[i] == sep[i];
      }
    }
    assert AllSpace(post) by {
      forall i | 0 <= i < |post|
        ensures IsSpace(post[i])
      {
        assert post[i] == sep[k + 1 + i];
      }
    }
    StripSplitJoin(ns, pre, sep[k], post);
  }

  lemma {:induction false} StripSplitSingle(n: string, c: char)
    requires Trimmed(n) && c !in n
    ensures Split(n, [c]) == [n] && Strip(n) == n
  {
    NotContainsByChar(n, [c], 0);
    SplitSingleton(n, [c]);
    StripPadded(n, []);
    assert n + [] == n;
  }

  lemma {:induction false} StripPiecesStep(ns: seq<string>, all: seq<string>, rs: seq<string>, pre: string, post: string)
    requires |ns| >= 2 && Trimmed(ns[0]) && AllSpace(pre) && AllSpace(post)
    requires StripsBack(rs, ns[1..])
    requires |all| == |rs| + 1 && all[0] == ns[0] + pre && all[1] == post + rs[0]
    requires forall i :: 2 <= i < |all| ==> all[i] == rs[i - 1]
    ensures StripsBack(all, ns)
  {
    assert |all| == |ns|;
    forall i | 0 <= i < |ns|
      ensures Strip(all[i]) == ns[i]
    {
      if i == 0 {
        StripPadded(ns[0], pre);
      } else {
        assert Strip(rs[i - 1]) == ns[1..][i - 1];
        if i == 1 {
          StripLeadingSpaces(post, rs[0]);
        }
      }
    }
  }

  lemma {:induction false} SplitJoinStep(ns: seq<string>, pre: string, c: char, post: string)
    requires |ns| >= 2 && AllSpace(pre) && AllSpace(post) && !IsSpace(c) && c !in ns[0]
    ensures var all, rs := Split(Join(ns, pre + [c] + post), [c]), Split(Join(ns[1..], pre + [c] + post), [c]);
            && |all| == |rs| + 1 && all[0] == ns[0] + pre && all[1] == post + rs[0]
            && forall i :: 2 <= i < |all| ==> all[i] == rs[i - 1]
  {
    var sep := pre + [c] + post;
    var rest := Join(ns[1..], sep);
    assert Join(ns, sep) == (ns[0] + pre) + [c] + post + rest by {
      assert Join(ns, sep) == ns[0] + sep + rest;
      ConcatFour(ns[0], pre, [c], post, rest);
    }
    SplitAroundChar(ns[0] + pre, c, post, rest);
  }

  lemma {:induction false} ConcatFour(a: string, b: string, c: string, d: string, e: string)
    ensures a + (b + c + d) + e == (a + b) + c + d + e
  {
  }

  /** Splitting on a character that the text before it and `post` do not hold. */
  lemma {:induction false} SplitAroundChar(head: string, c: char, post: string, rest: string)
    requires c !in head && c !in post
    ensures var all, rs := Split(head + [c] + post + rest, [c]), Split(rest, [c]);
            && |all| == |rs| + 1 && all[0] == head && all[1] == post + rs[0]
            && forall i :: 2 <= i < |all| ==> all[i] == rs[i - 1]
  {
    assert head + [c] + post + rest == head + [c] + (post + rest);
    SplitPrefixChar(head, [c], post + rest, 0);
    SplitFreeHead(post, rest, [c]);
    var all, rs := Split(head + [c] + post + rest, [c]), Split(rest, [c]);
    var ps := Split(post + rest, [c]);
    assert all == [head] + ps;
    forall i | 2 <= i < |all|
      ensures all[i] == rs[i - 1]
    {
      assert all[i] == ps[i - 1] == ps[1..][i - 2] == rs[1..][i - 2];
    }
  }

  /** Joining parts that cannot hold the separator and splitting again gives the parts back. */
  lemma {:induction false} SplitJoinFree(parts: seq<string>, sep: string, k: nat)
    requires |parts| >= 1 && k < |sep| && sep[k] !in sep[..k]
    requires forall i :: 0 <= i < |parts| ==> sep[k] !in parts[i]
    ensures Split(Join(parts, sep), sep) == parts
    decreases |parts|
  {
    if |parts| == 1 {
      NotContainsByChar(parts[0], sep, k);
      SplitSingleton(parts[0], sep);
    } else {
      SplitJoinFree(parts[1..], sep, k);
      SplitPrefixChar(parts[0], sep, Join(parts[1..], sep), k);
      assert parts == [parts[0]] + parts[1..];
    }
  }

  /** Joining pieces without whitespace on a separator without whitespace gives text without whitespace. */
  lemma {:induction false} JoinNoSpace(parts: seq<string>, sep: string)
    requires NoSpace(sep) && forall i :: 0 <= i < |parts| ==> NoSpace(parts[i])
    ensures NoSpace(Join(parts, sep))
  {
    var s := Join(parts, sep);
    forall k | 0 <= k < |s|
      ensures !IsSpace(s[k])
    {
      var c := s[k];
      JoinChars(parts, sep, c);
      if c in sep {
        var x :| 0 <= x < |sep| && sep[x] == c;
      } else {
        var j :| 0 <= j < |parts| && c in parts[j];
        var x :| 0 <= x < |parts[j]| && parts[j][x] == c;
      }
    }
  }
}

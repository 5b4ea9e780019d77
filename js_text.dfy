/** String primitives the core relies on, written out with the exact semantics
    of the JavaScript and Python operations they stand for: `trim()`, the
    regex class `\s`, `includes`, `endsWith`, `split` and `join`. */
module JsText {

  /** The characters that JavaScript's `trim()` removes and that the regex
      class `\s` matches: WhiteSpace and LineTerminator of ECMA-262. */
  predicate IsJsSpace(c: char) {
    var n := c as int;
    n == 0x09 || n == 0x0A || n == 0x0B || n == 0x0C || n == 0x0D || n == 0x20 ||
    n == 0xA0 || n == 0x1680 || (0x2000 <= n <= 0x200A) || n == 0x2028 ||
    n == 0x2029 || n == 0x202F || n == 0x205F || n == 0x3000 || n == 0xFEFF
  }

  /** The characters for which Python's `str.isspace()` holds; `str.split()`
      without arguments splits on runs of them. */
  predicate IsPySpace(c: char) {
    var n := c as int;
    (0x09 <= n <= 0x0D) || (0x1C <= n <= 0x20) || n == 0x85 || n == 0xA0 ||
    n == 0x1680 || (0x2000 <= n <= 0x200A) || n == 0x2028 || n == 0x2029 ||
    n == 0x202F || n == 0x205F || n == 0x3000
  }

  /** Which language's notion of white space a word split uses. */
  datatype Flavor = Js | Py

  predicate IsSpace(f: Flavor, c: char) {
    match f
    case Js => IsJsSpace(c)
    case Py => IsPySpace(c)
  }

  predicate AllSpace(s: string) {
    forall i :: 0 <= i < |s| ==> IsJsSpace(s[i])
  }

  /** Neither end of `s` is JavaScript white space. */
  predicate IsTrimmed(s: string) {
    s == [] || (!IsJsSpace(s[0]) && !IsJsSpace(s[|s| - 1]))
  }

  /** Drops the leading white space. */
  function TrimStart(s: string): (r: string)
    ensures |r| <= |s|
    decreases |s|
  {
    if s != [] && IsJsSpace(s[0]) then TrimStart(s[1..]) else s
  }

  /** Drops the trailing white space. */
  function TrimEnd(s: string): (r: string)
    ensures |r| <= |s|
    decreases |s|
  {
    if s != [] && IsJsSpace(s[|s| - 1]) then TrimEnd(s[..|s| - 1]) else s
  }

  /** TrimStart keeps the suffix that starts at the first non-space
      character. */
  lemma {:induction false} TrimStartFacts(s: string)
    ensures var r := TrimStart(s);
      |r| <= |s| && r == s[|s| - |r|..] && AllSpace(s[..|s| - |r|]) && (r == [] || !IsJsSpace(r[0]))
    decreases |s|
  {
    if s != [] && IsJsSpace(s[0]) {
      var r := TrimStart(s[1..]);
      TrimStartFacts(s[1..]);
      assert s[..|s| - |r|] == [s[0]] + s[1..][..|s[1..]| - |r|];
    }
  }

  /** TrimEnd keeps the prefix that ends at the last non-space character. */
  lemma {:induction false} TrimEndFacts(s: string)
    ensures var r := TrimEnd(s);
      |r| <= |s| && r == s[..|r|] && AllSpace(s[|r|..]) && (r == [] || !IsJsSpace(r[|r| - 1]))
    decreases |s|
  {
    if s != [] && IsJsSpace(s[|s| - 1]) {
      var r := TrimEnd(s[..|s| - 1]);
      TrimEndFacts(s[..|s| - 1]);
      assert s[|r|..] == s[..|s| - 1][|r|..] + [s[|s| - 1]];
    }
  }

  /** `String.prototype.trim`. */
  function Trim(s: string): (r: string)
    ensures IsTrimmed(r)
    ensures |r| <= |s|
  {
    var e := TrimEnd(s);
    var r := TrimStart(e);
    TrimEndFacts(s);
    TrimStartFacts(e);
    assert r != [] ==> r[|r| - 1] == e[|e| - 1];
    r
  }

  /** Trim yields the empty string exactly for blank input. */
  lemma TrimEmptyIffBlank(s: string)
    ensures Trim(s) == [] <==> AllSpace(s)
  {
    var e := TrimEnd(s);
    var r := TrimStart(e);
    TrimEndFacts(s);
    TrimStartFacts(e);
    assert forall i :: 0 <= i < |e| ==> e[i] == s[i];
    assert forall i :: |e| <= i < |s| ==> s[i] == s[|e|..][i - |e|];
    assert forall i :: 0 <= i < |e| - |r| ==> e[i] == e[..|e| - |r|][i];
  }

  /** Blank text, one character at a time: what `!s.trim()` tests. */
  predicate IsBlank(s: string)
    decreases |s|
  {
    s == [] || (IsJsSpace(s[0]) && IsBlank(s[1..]))
  }

  lemma {:induction false} BlankIsAllSpace(s: string)
    ensures IsBlank(s) <==> AllSpace(s)
    decreases |s|
  {
    if s != [] {
      BlankIsAllSpace(s[1..]);
      assert forall i :: 1 <= i < |s| ==> s[i] == s[1..][i - 1];
    }
  }

  /** `s.trim()` is empty exactly when `s` is blank. */
  lemma BlankIffTrimEmpty(s: string)
    ensures IsBlank(s) <==> Trim(s) == []
  {
    BlankIsAllSpace(s);
    TrimEmptyIffBlank(s);
  }

  lemma {:induction false} TrimEndPadded(x: string, trail: string)
    requires AllSpace(trail) && (x == [] || !IsJsSpace(x[|x| - 1]))
    ensures TrimEnd(x + trail) == x
    decreases |trail|
  {
    if trail == [] {
      assert x + trail == x;
    } else {
      var t' := trail[..|trail| - 1];
      assert (x + trail)[..|x + trail| - 1] == x + t';
      TrimEndPadded(x, t');
    }
  }

  lemma {:induction false} TrimStartPadded(lead: string, x: string)
    requires AllSpace(lead) && (x == [] || !IsJsSpace(x[0]))
    ensures TrimStart(lead + x) == x
    decreases |lead|
  {
    if lead == [] {
      assert lead + x == x;
    } else {
      assert (lead + x)[0] == lead[0];
      assert (lead + x)[1..] == lead[1..] + x;
      TrimStartPadded(lead[1..], x);
    }
  }

  /** Trim is characterised by what it removes: any string padded with white
      space on both sides trims back to its trimmed core. */
  lemma TrimPadded(lead: string, core: string, trail: string)
    requires AllSpace(lead) && AllSpace(trail) && IsTrimmed(core)
    ensures Trim(lead + core + trail) == core
  {
    var s := lead + core + trail;
    if core == [] {
      assert s == lead + trail;
      forall i | 0 <= i < |s| ensures IsJsSpace(s[i]) {
        if i < |lead| { assert s[i] == lead[i]; } else { assert s[i] == trail[i - |lead|]; }
      }
      TrimEmptyIffBlank(s);
    } else {
      var lc := lead + core;
      assert s == lc + trail;
      assert lc[|lc| - 1] == core[|core| - 1];
      TrimEndPadded(lc, trail);
      assert lc[|lead|..] == core;
      TrimStartPadded(lead, core);
    }
  }

  lemma TrimOfTrimmed(s: string)
    requires IsTrimmed(s)
    ensures Trim(s) == s
  {
    TrimPadded("", s, "");
    assert "" + s + "" == s;
  }

  /** `p` is a prefix of `s`. */
  predicate IsPrefix(p: string, s: string) {
    |p| <= |s| && s[..|p|] == p
  }

  /** `s.includes(p)` in JavaScript, `p in s` in Python: a case-sensitive
      substring test. */
  predicate Contains(s: string, p: string)
    decreases |s|
  {
    IsPrefix(p, s) || (s != [] && Contains(s[1..], p))
  }

  lemma ContainsPrefix(s: string, p: string)
    requires IsPrefix(p, s)
    ensures Contains(s, p)
  {
  }

  /** A character of `p` that never occurs in `s` rules out `p` occurring in
      `s`. */
  lemma {:induction false} AbsentCharRulesOut(s: string, p: string, k: nat)
    requires k < |p| && p[k] !in s
    ensures !Contains(s, p)
  {
    if s != [] {
      forall j | 0 <= j < |s[1..]| ensures s[1..][j] != p[k] {
        assert s[1..][j] == s[j + 1];
      }
      AbsentCharRulesOut(s[1..], p, k);
    }
  }

  lemma PrefixChar(p: string, s: string, j: nat)
    ensures IsPrefix(p, s) && j < |p| ==> s[j] == p[j]
  {
    if IsPrefix(p, s) && j < |p| {
      assert s[..|p|][j] == s[j];
    }
  }

  /** Let `p[k]` be the first occurrence of its character in `p`, absent from
      `x`, and let `y` start with that character. An occurrence of `p` in
      `x + y` then either puts `p[k]` on `y[0]`, which a mismatch at `m` rules
      out (or the end of the text), or lies wholly inside `y[1..]`. */
  lemma {:induction false} SkipTo(x: string, y: string, p: string, k: nat, m: nat)
    requires k < |p| && y != [] && y[0] == p[k] && p[k] !in p[..k] && p[k] !in x
    requires k <= |x| ==>
      (|x| - k + |p| > |x + y| ||
       (m < |p| && |x| - k + m < |x + y| && p[m] != (x + y)[|x| - k + m]))
    ensures Contains(x + y, p) ==> Contains(y[1..], p)
    decreases |x|
  {
    var s := x + y;
    PrefixChar(p, s, |x|);
    PrefixChar(p, s, k);
    PrefixChar(p, s, m);
    assert |x| < k ==> p[|x|] in p[..k];
    assert k == |x| ==> s[|x| - k..] == s;
    if x == [] {
      assert s[1..] == y[1..];
    } else {
      var x' := x[1..];
      assert s[1..] == x' + y;
      forall j | 0 <= j < |x'| ensures x'[j] != p[k] {
        assert x'[j] == x[j + 1];
      }
      assert k <= |x'| && |x| - k + m < |s| ==> (x' + y)[|x'| - k + m] == s[|x| - k + m];
      SkipTo(x', y, p, k, m);
    }
  }

  /** An occurrence in a suffix is an occurrence in the whole. */
  lemma {:induction false} ContainsInSuffix(x: string, y: string, p: string)
    requires Contains(y, p)
    ensures Contains(x + y, p)
    decreases |x|
  {
    if x == [] {
      assert x + y == y;
    } else {
      assert (x + y)[1..] == x[1..] + y;
      ContainsInSuffix(x[1..], y, p);
    }
  }

  /** `s.endsWith(suffix)`. */
  predicate EndsWith(s: string, suffix: string) {
    |suffix| <= |s| && s[|s| - |suffix|..] == suffix
  }

  function LowerAscii(c: char): char {
    if 'A' <= c <= 'Z' then (c as int + 32) as char else c
  }

  /** `toLowerCase()` restricted to ASCII letters (see README: no other
      character lower-cases to one that the suffix tests look for). */
  function ToLowerAscii(s: string): (r: string)
    ensures |r| == |s|
    ensures forall i :: 0 <= i < |s| ==> r[i] == LowerAscii(s[i])
  {
    seq(|s|, i requires 0 <= i < |s| => LowerAscii(s[i]))
  }

  /** `parts.join(sep)`. */
  function JoinWith(sep: string, parts: seq<string>): string
    decreases |parts|
  {
    if |parts| == 0 then ""
    else if |parts| == 1 then parts[0]
    else parts[0] + sep + JoinWith(sep, parts[1..])
  }

  lemma {:induction false} JoinWithSnoc(sep: string, parts: seq<string>, last: string)
    requires parts != []
    ensures JoinWith(sep, parts + [last]) == JoinWith(sep, parts) + sep + last
    decreases |parts|
  {
    if |parts| == 1 {
      assert parts + [last] == [parts[0], last];
      assert [parts[0], last][1..] == [last];
    } else {
      assert (parts + [last])[1..] == parts[1..] + [last];
      JoinWithSnoc(sep, parts[1..], last);
    }
  }

  /** The first part opens the joined string. */
  lemma JoinWithFirst(sep: string, parts: seq<string>)
    requires parts != []
    ensures IsPrefix(parts[0], JoinWith(sep, parts))
  {
    if |parts| > 1 {
      assert (parts[0] + sep + JoinWith(sep, parts[1..]))[..|parts[0]|] == parts[0];
    }
  }

  /** Joining non-empty trimmed parts gives a trimmed string, empty only when
      there is nothing to join. */
  lemma {:induction false} JoinTrimmed(sep: string, parts: seq<string>)
    requires forall t :: t in parts ==> t != [] && IsTrimmed(t)
    ensures IsTrimmed(JoinWith(sep, parts))
    ensures JoinWith(sep, parts) == [] <==> parts == []
    ensures parts != [] ==> parts[0] != [] && JoinWith(sep, parts)[0] == parts[0][0]
    decreases |parts|
  {
    if |parts| > 1 {
      assert parts[0] in parts;
      assert forall t :: t in parts[1..] ==> t in parts;
      JoinTrimmed(sep, parts[1..]);
      var rest := JoinWith(sep, parts[1..]);
      assert JoinWith(sep, parts) == parts[0] + sep + rest;
      assert JoinWith(sep, parts)[|JoinWith(sep, parts)| - 1] == rest[|rest| - 1];
    } else if |parts| == 1 {
      assert parts[0] in parts;
    }
  }

  /** Number of occurrences of `c` in `s`. */
  function Count(s: string, c: char): nat
    decreases |s|
  {
    if s == [] then 0 else (if s[0] == c then 1 else 0) + Count(s[1..], c)
  }

  /** `s.split(c)` for a one-character separator (JavaScript and Python agree):
      the segments between occurrences of `c`, empty ones included. */
  function SplitOn(s: string, c: char): (parts: seq<string>)
    ensures parts != []
    decreases |s|
  {
    if s == [] then [""]
    else
      var rest := SplitOn(s[1..], c);
      if s[0] == c then [""] + rest
      else [[s[0]] + rest[0]] + rest[1..]
  }

  /** Splitting yields one more segment than there are separators, none of
      the segments holds the separator, and joining them back restores the
      string. */
  lemma {:induction false} SplitOnFacts(s: string, c: char)
    ensures |SplitOn(s, c)| == Count(s, c) + 1
    ensures forall part :: part in SplitOn(s, c) ==> c !in part
    ensures JoinWith([c], SplitOn(s, c)) == s
    decreases |s|
  {
    if s != [] {
      var rest := SplitOn(s[1..], c);
      SplitOnFacts(s[1..], c);
      assert s == [s[0]] + s[1..];
      if s[0] == c {
        assert SplitOn(s, c) == [""] + rest;
        assert forall part :: part in SplitOn(s, c) ==> part == "" || part in rest;
        assert (["" ] + rest)[1..] == rest;
      } else {
        var parts := SplitOn(s, c);
        assert parts == [[s[0]] + rest[0]] + rest[1..];
        assert rest[0] in rest;
        forall part | part in parts ensures c !in part {
          if part != parts[0] {
            assert part in rest[1..];
            assert forall t :: t in rest[1..] ==> t in rest;
          }
        }
        if |rest| > 1 {
          assert parts[1..] == rest[1..];
          assert JoinWith([c], rest) == rest[0] + [c] + JoinWith([c], rest[1..]);
        }
      }
    }
  }

  /** Length of the run of non-space characters at the start of `s`. */
  function WordLength(f: Flavor, s: string): (n: nat)
    ensures n <= |s|
    ensures forall i :: 0 <= i < n ==> !IsSpace(f, s[i])
    ensures n < |s| ==> IsSpace(f, s[n])
    decreases |s|
  {
    if s == [] || IsSpace(f, s[0]) then 0 else 1 + WordLength(f, s[1..])
  }

  /** The maximal runs of non-space characters of `s`, in order: what
      JavaScript's `s.split(/\s+/).filter(w => w.length > 0)` and Python's
      `s.split()` both return. */
  function Words(f: Flavor, s: string): seq<string>
    decreases |s|
  {
    if s == [] then []
    else if IsSpace(f, s[0]) then Words(f, s[1..])
    else
      var n := WordLength(f, s);
      [s[..n]] + Words(f, s[n..])
  }

  /** The characters of `s` that are not white space, in order. */
  function NonSpace(f: Flavor, s: string): string
    decreases |s|
  {
    if s == [] then []
    else (if IsSpace(f, s[0]) then [] else [s[0]]) + NonSpace(f, s[1..])
  }

  function Concat(parts: seq<string>): string
    decreases |parts|
  {
    if parts == [] then [] else parts[0] + Concat(parts[1..])
  }

  lemma {:induction false} NonSpaceAppend(f: Flavor, a: string, b: string)
    ensures NonSpace(f, a + b) == NonSpace(f, a) + NonSpace(f, b)
    decreases |a|
  {
    if a != [] {
      assert (a + b)[1..] == a[1..] + b;
      NonSpaceAppend(f, a[1..], b);
    } else {
      assert a + b == b;
    }
  }

  /** Every word is non-empty and free of white space, and together the words
      hold exactly the non-space characters of the text, in order. */
  lemma {:induction false} WordsFacts(f: Flavor, s: string)
    ensures forall w :: w in Words(f, s) ==> w != [] && forall i :: 0 <= i < |w| ==> !IsSpace(f, w[i])
    ensures Concat(Words(f, s)) == NonSpace(f, s)
    decreases |s|
  {
    if s != [] {
      if IsSpace(f, s[0]) {
        WordsFacts(f, s[1..]);
      } else {
        var n := WordLength(f, s);
        var w := s[..n];
        WordsFacts(f, s[n..]);
        assert Words(f, s) == [w] + Words(f, s[n..]);
        assert Words(f, s)[1..] == Words(f, s[n..]);
        NonSpaceAppend(f, w, s[n..]);
        assert s == w + s[n..];
        NonSpaceOfWord(f, w);
      }
    }
  }

  lemma {:induction false} NonSpaceOfWord(f: Flavor, w: string)
    requires forall i :: 0 <= i < |w| ==> !IsSpace(f, w[i])
    ensures NonSpace(f, w) == w
    decreases |w|
  {
    if w != [] {
      NonSpaceOfWord(f, w[1..]);
    }
  }

  /** `s.replace(/\s+/g, ' ')`: every maximal run of white space becomes a
      single space. */
  function CollapseSpaces(s: string): (r: string)
    ensures s != [] ==> r != [] && (IsJsSpace(s[0]) ==> r[0] == ' ') && (!IsJsSpace(s[0]) ==> r[0] == s[0])
    decreases |s|
  {
    if s == [] then []
    else if IsJsSpace(s[0]) then
      var t := TrimStart(s);
      assert s[0..] == s;
      " " + CollapseSpaces(t)
    else [s[0]] + CollapseSpaces(s[1..])
  }

  /** No two neighbouring characters are both white space, and the only white
      space left is the plain space. */
  predicate SingleSpaced(r: string) {
    (forall i :: 0 <= i < |r| && IsJsSpace(r[i]) ==> r[i] == ' ') &&
    (forall i :: 0 <= i < |r| - 1 ==> !(r[i] == ' ' && r[i + 1] == ' '))
  }

  /** Collapsing keeps every non-space character, in order, and leaves the
      text single-spaced. */
  lemma {:induction false} CollapseFacts(s: string)
    ensures SingleSpaced(CollapseSpaces(s))
    ensures NonSpace(Js, CollapseSpaces(s)) == NonSpace(Js, s)
    decreases |s|
  {
    if s != [] {
      var r := CollapseSpaces(s);
      if IsJsSpace(s[0]) {
        var t := TrimStart(s);
        TrimStartFacts(s);
        assert s[0..] == s;
        CollapseFacts(t);
        var rt := CollapseSpaces(t);
        assert r == " " + rt;
        assert rt != [] ==> rt[0] == t[0] && !IsJsSpace(rt[0]);
        forall i | 0 <= i < |r| - 1 ensures !(r[i] == ' ' && r[i + 1] == ' ') {
          if i > 0 { assert r[i] == rt[i - 1] && r[i + 1] == rt[i]; }
        }
        forall i | 0 <= i < |r| && IsJsSpace(r[i]) ensures r[i] == ' ' {
          if i > 0 { assert r[i] == rt[i - 1]; }
        }
        NonSpaceAppend(Js, " ", rt);
        var lead := s[..|s| - |t|];
        assert s == lead + t;
        NonSpaceAppend(Js, lead, t);
        NonSpaceOfBlank(lead);
      } else {
        CollapseFacts(s[1..]);
        var rt := CollapseSpaces(s[1..]);
        assert r == [s[0]] + rt;
        forall i | 0 <= i < |r| - 1 ensures !(r[i] == ' ' && r[i + 1] == ' ') {
          if i > 0 { assert r[i] == rt[i - 1] && r[i + 1] == rt[i]; }
        }
        forall i | 0 <= i < |r| && IsJsSpace(r[i]) ensures r[i] == ' ' {
          if i > 0 { assert r[i] == rt[i - 1]; }
        }
        NonSpaceAppend(Js, [s[0]], rt);
      }
    }
  }

  /** Collapsing introduces no character other than the plain space. */
  lemma {:induction false} CollapseChars(s: string)
    ensures forall c :: c in CollapseSpaces(s) ==> c == ' ' || c in s
    decreases |s|
  {
    if s != [] {
      if IsJsSpace(s[0]) {
        var t := TrimStart(s);
        TrimStartFacts(s);
        assert s[0..] == s;
        CollapseChars(t);
        assert CollapseSpaces(s) == " " + CollapseSpaces(t);
        assert forall c :: c in t ==> c in s;
      } else {
        CollapseChars(s[1..]);
        assert CollapseSpaces(s) == [s[0]] + CollapseSpaces(s[1..]);
        assert forall c :: c in s[1..] ==> c in s;
      }
    }
  }

  lemma {:induction false} NonSpaceOfBlank(s: string)
    requires AllSpace(s)
    ensures NonSpace(Js, s) == []
    decreases |s|
  {
    if s != [] {
      NonSpaceOfBlank(s[1..]);
    }
  }

  /** Trim cuts a contiguous piece out of `s` and drops only white space
      around it. */
  lemma TrimSlice(s: string) returns (a: nat)
    ensures a + |Trim(s)| <= |s| && Trim(s) == s[a..a + |Trim(s)|]
    ensures AllSpace(s[..a]) && AllSpace(s[a + |Trim(s)|..])
  {
    var e := TrimEnd(s);
    var r := TrimStart(e);
    TrimEndFacts(s);
    TrimStartFacts(e);
    a := |e| - |r|;
    assert s[..a] == e[..a];
  }

  /** Trimming only removes white space: every character it keeps comes from
      the input, and every non-space character of the input is kept. */
  lemma TrimKeeps(s: string)
    ensures forall c :: c in Trim(s) ==> c in s
    ensures NonSpace(Js, Trim(s)) == NonSpace(Js, s)
  {
    var r := Trim(s);
    var a := TrimSlice(s);
    var b := a + |r|;
    assert s == s[..a] + r + s[b..];
    NonSpaceAppend(Js, s[..a] + r, s[b..]);
    NonSpaceAppend(Js, s[..a], r);
    NonSpaceOfBlank(s[b..]);
    NonSpaceOfBlank(s[..a]);
  }

  /** A piece cut out of a single-spaced text is single-spaced. */
  lemma TrimSingleSpaced(s: string)
    requires SingleSpaced(s)
    ensures SingleSpaced(Trim(s))
  {
    var r := Trim(s);
    var a := TrimSlice(s);
    assert forall i :: 0 <= i < |r| ==> r[i] == s[a + i];
  }

  function Digit(d: nat): char
    requires d < 10
  {
    "0123456789"[d]
  }

  /** Decimal rendering of a natural number, as a template literal prints it. */
  function NatToString(n: nat): (r: string)
    ensures r != []
    ensures forall i :: 0 <= i < |r| ==> '0' <= r[i] <= '9'
    decreases n
  {
    if n < 10 then [Digit(n)] else NatToString(n / 10) + [Digit(n % 10)]
  }

  function IntToString(i: int): string {
    if i < 0 then "-" + NatToString(-i) else NatToString(i)
  }
}

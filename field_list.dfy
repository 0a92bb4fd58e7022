/** The configuration ProtectedLogListener reads, and the blank separated
    field-number lists of its `protect` and `wipe` properties. The lists are
    turned into `int[]` by ISOUtil.toIntArray, modelled here as a parser that
    accepts unsigned decimal tokens within the range of a Java `int`. */
module FieldList {
  import opened Iso

  /** A jPOS Configuration: property name to value. */
  type Configuration = map<string, string>

  /** `cfg.get(key, default)`. */
  function Get(cfg: Configuration, key: string, default: string): string
  {
    if key in cfg then cfg[key] else default
  }

  /** Integer.MAX_VALUE: a field number must fit an `int[]` element. */
  const MAX_INT: int := 0x7fff_ffff

  predicate IsDigit(c: char)
  {
    '0' <= c <= '9'
  }

  function DigitChar(d: nat): (c: char)
    requires d < 10
    ensures IsDigit(c)
  {
    ('0' as int + d) as char
  }

  /** The value of a non-empty string of decimal digits. */
  function ParseDecimal(s: string): Option<nat>
    decreases |s|
  {
    if s == [] || !IsDigit(s[|s| - 1]) then None
    else
      var d := (s[|s| - 1] as int) - ('0' as int);
      if |s| == 1 then Some(d)
      else match ParseDecimal(s[..|s| - 1])
        case None => None
        case Some(n) => Some(10 * n + d)
  }

  /** The decimal digits of `n`, without leading zeros. */
  function Decimal(n: nat): (s: string)
    ensures |s| > 0 && forall i :: 0 <= i < |s| ==> IsDigit(s[i])
  {
    if n < 10 then [DigitChar(n)] else Decimal(n / 10) + [DigitChar(n % 10)]
  }

  lemma {:induction false} DecimalRoundTrip(n: nat)
    ensures ParseDecimal(Decimal(n)) == Some(n)
  {
    if n >= 10 {
      DecimalRoundTrip(n / 10);
      var s := Decimal(n);
      assert s[..|s| - 1] == Decimal(n / 10);
    }
  }

  /** The number of characters of `s` before its first blank. */
  function TokenLength(s: string): (n: nat)
    ensures n <= |s|
    ensures forall k :: 0 <= k < n ==> s[k] != ' '
    ensures n == |s| || s[n] == ' '
  {
    if s == [] || s[0] == ' ' then 0 else 1 + TokenLength(s[1..])
  }

  /** The blank separated tokens of `s`, in order. */
  function Tokens(s: string): (ts: seq<string>)
    decreases |s|
    ensures forall i :: 0 <= i < |ts| ==> |ts[i]| > 0 && ' ' !in ts[i]
  {
    if s == [] then []
    else if s[0] == ' ' then Tokens(s[1..])
    else
      var n := TokenLength(s);
      [s[..n]] + Tokens(s[n..])
  }

  /** Each token as an `int`, or None when some token is not a decimal
      number within the range of an `int`. */
  function ParseTokens(ts: seq<string>): (r: Option<seq<int>>)
    ensures r.Some? ==> |r.value| == |ts|
    ensures r.Some? ==> forall i :: 0 <= i < |r.value| ==> 0 <= r.value[i] <= MAX_INT
    ensures r.Some? ==> forall i :: 0 <= i < |ts| ==> ParseDecimal(ts[i]) == Some(r.value[i] as nat)
    ensures r.None? ==> exists i :: 0 <= i < |ts| && !InRange(ParseDecimal(ts[i]))
  {
    if ts == [] then Some([])
    else
      var p := ParseDecimal(ts[0]);
      if !InRange(p) then None
      else match ParseTokens(ts[1..])
        case None => None
        case Some(rest) => Some([p.value] + rest)
  }

  predicate InRange(p: Option<nat>)
  {
    p.Some? && p.value <= MAX_INT
  }

  /** ISOUtil.toIntArray: the field numbers of a blank separated list. */
  function ToIntArray(s: string): Option<seq<int>>
  {
    ParseTokens(Tokens(s))
  }

  /** The list `xs` written as decimals separated by single blanks. */
  function Join(xs: seq<nat>): string
  {
    if xs == [] then ""
    else if |xs| == 1 then Decimal(xs[0])
    else Decimal(xs[0]) + " " + Join(xs[1..])
  }

  lemma {:induction false} TokenLengthOf(t: string, rest: string)
    requires ' ' !in t
    requires rest == [] || rest[0] == ' '
    ensures TokenLength(t + rest) == |t|
  {
    if t != [] {
      assert (t + rest)[1..] == t[1..] + rest;
      TokenLengthOf(t[1..], rest);
    } else {
      assert t + rest == rest;
    }
  }

  lemma TokensOf(t: string, rest: string)
    requires |t| > 0 && ' ' !in t
    requires rest == [] || rest[0] == ' '
    ensures Tokens(t + rest) == [t] + Tokens(rest)
  {
    TokenLengthOf(t, rest);
    assert (t + rest)[..|t|] == t;
    assert (t + rest)[|t|..] == rest;
  }

  lemma {:induction false} TokensJoin(xs: seq<nat>)
    ensures |Tokens(Join(xs))| == |xs|
    ensures forall i :: 0 <= i < |xs| ==> Tokens(Join(xs))[i] == Decimal(xs[i])
  {
    if xs != [] {
      var d := Decimal(xs[0]);
      assert ' ' !in d by {
        forall i | 0 <= i < |d| ensures d[i] != ' ' {
          assert IsDigit(d[i]);
        }
      }
      if |xs| == 1 {
        TokensOf(d, "");
        assert d + "" == d;
      } else {
        var rest := " " + Join(xs[1..]);
        TokensOf(d, rest);
        assert d + " " + Join(xs[1..]) == d + rest;
        assert Tokens(rest) == Tokens(Join(xs[1..]));
        TokensJoin(xs[1..]);
      }
    }
  }

  /** Writing a list of in-range field numbers and reading it back with
      toIntArray gives the same list. */
  lemma {:induction false} ToIntArrayRoundTrip(xs: seq<nat>)
    requires forall i :: 0 <= i < |xs| ==> xs[i] <= MAX_INT
    ensures ToIntArray(Join(xs)) == Some(xs)
  {
    var ts := Tokens(Join(xs));
    TokensJoin(xs);
    ParseDecimals(ts, xs);
  }

  lemma {:induction false} ParseDecimals(ts: seq<string>, xs: seq<nat>)
    requires |ts| == |xs|
    requires forall i :: 0 <= i < |xs| ==> ts[i] == Decimal(xs[i]) && xs[i] <= MAX_INT
    ensures ParseTokens(ts) == Some(xs)
  {
    if ts != [] {
      DecimalRoundTrip(xs[0]);
      ParseDecimals(ts[1..], xs[1..]);
      assert [xs[0]] + xs[1..] == xs;
    }
  }

  /** A property that is missing, empty or blank gives an empty field list:
      the default `""` protects and wipes nothing. */
  lemma {:induction false} BlankIsEmptyList(s: string)
    requires forall i :: 0 <= i < |s| ==> s[i] == ' '
    ensures ToIntArray(s) == Some([])
  {
    if s != [] {
      BlankIsEmptyList(s[1..]);
    }
  }

  /** The parser refuses a signed token and a list separated by a tab or a
      newline (so setConfiguration reports failure for them). */
  lemma SignsAndTabsRefused()
    ensures ToIntArray("+2") == None && ToIntArray("-2") == None
    ensures ToIntArray("2\t48") == None && ToIntArray("2\n48") == None
  {
    SingleToken("2\t48");
    assert "2\t48"[..3] == "2\t4" && "2\t4"[..2] == "2\t";
    SingleToken("2\n48");
    assert "2\n48"[..3] == "2\n4" && "2\n4"[..2] == "2\n";
  }

  lemma {:induction false} SingleToken(s: string)
    requires |s| > 0 && ' ' !in s
    ensures Tokens(s) == [s]
  {
    TokensOf(s, "");
    assert s + "" == s;
  }
}

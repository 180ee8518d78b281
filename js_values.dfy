/**
 * The slice of JavaScript value semantics that the application's logic
 * depends on: values as they arrive in request bodies and JSON columns,
 * truthiness (`if (x)`), ASCII case folding and trimming, substring search,
 * `parseInt`/`parseFloat`, number-to-string rendering and `Math.round`.
 */
module JsValues {

  datatype Option<T> = None | Some(value: T)

  /** How a call ends: with a value, or by throwing (a `TypeError` from
      calling a member the value does not have). */
  datatype Completion<T> = Normal(value: T) | Throw

  /** A JavaScript value. `Num` carries the exact rational value; NaN,
      the infinities and rounding of binary floating point are not modelled. */
  datatype JsValue =
    | Undefined
    | Null
    | Bool(b: bool)
    | Num(n: real)
    | Str(s: string)
    | Arr(items: seq<JsValue>)
    | Obj(fields: map<string, JsValue>)

  /** ECMAScript ToBoolean: what `if (v)` and `v || d` test. */
  predicate Truthy(v: JsValue)
  {
    match v
    case Undefined => false
    case Null => false
    case Bool(b) => b
    case Num(n) => n != 0.0
    case Str(s) => s != ""
    case Arr(_) => true
    case Obj(_) => true
  }

  /** A nullable integer column or field read with `if (x)`: null and 0 are both falsy. */
  predicate IntTruthy(x: Option<int>)
  {
    x.Some? && x.value != 0
  }

  predicate RealTruthy(x: Option<real>)
  {
    x.Some? && x.value != 0.0
  }

  /** `obj[key]` on a plain object: a missing key reads as undefined. */
  function Get(fields: map<string, JsValue>, key: string): JsValue
  {
    if key in fields then fields[key] else Undefined
  }

  /** `v.key` / `v[key]`: only objects have members here. */
  function Prop(v: JsValue, key: string): JsValue
  {
    if v.Obj? then Get(v.fields, key) else Undefined
  }

  // ---------------------------------------------------------------------
  // Characters and strings (ASCII only)
  // ---------------------------------------------------------------------

  predicate IsUpper(c: char) { 'A' <= c <= 'Z' }
  predicate IsLower(c: char) { 'a' <= c <= 'z' }
  predicate IsLetter(c: char) { IsUpper(c) || IsLower(c) }
  predicate IsDigit(c: char) { '0' <= c <= '9' }

  /** The ASCII whitespace that `String.prototype.trim` and `\s` recognise. */
  predicate IsSpace(c: char)
  {
    c == ' ' || c == '\t' || c == '\n' || c == '\r' || c == '\U{B}' || c == '\U{C}'
  }

  function LowerChar(c: char): (r: char)
    ensures IsUpper(c) ==> IsLower(r)
    ensures !IsUpper(c) ==> r == c
  {
    if IsUpper(c) then (c as int + 32) as char else c
  }

  /** `toLowerCase()` restricted to ASCII letters. */
  function Lower(s: string): (r: string)
    ensures |r| == |s|
    ensures forall i :: 0 <= i < |s| ==> r[i] == LowerChar(s[i])
  {
    if s == [] then [] else [LowerChar(s[0])] + Lower(s[1..])
  }

  /** Lowercasing leaves a string without upper-case letters as it is. */
  lemma LowerNoUpper(s: string)
    requires forall i :: 0 <= i < |s| ==> !IsUpper(s[i])
    ensures Lower(s) == s
  {
  }

  function UpperChar(c: char): (r: char)
    ensures IsLower(c) ==> IsUpper(r)
    ensures !IsLower(c) ==> r == c
  {
    if IsLower(c) then (c as int - 32) as char else c
  }

  /** `toUpperCase()` restricted to ASCII letters. */
  function Upper(s: string): (r: string)
    ensures |r| == |s|
    ensures forall i :: 0 <= i < |s| ==> r[i] == UpperChar(s[i])
  {
    if s == [] then [] else [UpperChar(s[0])] + Upper(s[1..])
  }

  function TrimStart(s: string): (r: string)
    ensures |r| <= |s| && r == s[|s| - |r|..]
    ensures r == [] || !IsSpace(r[0])
    ensures forall i :: 0 <= i < |s| - |r| ==> IsSpace(s[i])
  {
    if s != [] && IsSpace(s[0]) then TrimStart(s[1..]) else s
  }

  function TrimEnd(s: string): (r: string)
    ensures |r| <= |s| && r == s[..|r|]
    ensures r == [] || !IsSpace(r[|r| - 1])
    ensures forall i :: |r| <= i < |s| ==> IsSpace(s[i])
  {
    if s != [] && IsSpace(s[|s| - 1]) then TrimEnd(s[..|s| - 1]) else s
  }

  /** `trim()`: the longest infix of `s` that neither starts nor ends with
      whitespace (TrimCutsSpace shows that only whitespace is cut). */
  function Trim(s: string): (r: string)
    ensures |r| <= |s|
    ensures r == [] || (!IsSpace(r[0]) && !IsSpace(r[|r| - 1]))
  {
    TrimEnd(TrimStart(s))
  }

  /** The trim is an infix of the text, and every character it cuts from
      either end is whitespace. */
  lemma {:induction false} TrimCutsSpace(s: string)
    ensures var r := Trim(s); var a := |s| - |TrimStart(s)|;
            a + |r| <= |s| && r == s[a..a + |r|] &&
            (forall i :: 0 <= i < a ==> IsSpace(s[i])) &&
            (forall i :: a + |r| <= i < |s| ==> IsSpace(s[i]))
  {
    var t := TrimStart(s);
    var r := TrimEnd(t);
    InfixCut(s, t, r);
  }

  /** Cutting whitespace off the front of `s` and then off the back leaves
      an infix with only whitespace around it. */
  lemma InfixCut(s: string, t: string, r: string)
    requires |t| <= |s| && t == s[|s| - |t|..]
    requires forall i :: 0 <= i < |s| - |t| ==> IsSpace(s[i])
    requires |r| <= |t| && r == t[..|r|]
    requires forall i :: |r| <= i < |t| ==> IsSpace(t[i])
    ensures var a := |s| - |t|;
            a + |r| <= |s| && r == s[a..a + |r|] &&
            (forall i :: 0 <= i < a ==> IsSpace(s[i])) &&
            (forall i :: a + |r| <= i < |s| ==> IsSpace(s[i]))
  {
    PrefixOfSuffix(s, t, r);
  }

  /** A prefix `r` of a suffix `t` of `s` is an infix of `s`, and what `t`
      has after `r` is what `s` has after it. */
  lemma PrefixOfSuffix(s: string, t: string, r: string)
    requires |t| <= |s| && t == s[|s| - |t|..]
    requires |r| <= |t| && r == t[..|r|]
    requires forall i :: |r| <= i < |t| ==> IsSpace(t[i])
    ensures var a := |s| - |t|;
            a + |r| <= |s| && r == s[a..a + |r|] &&
            forall i :: a + |r| <= i < |s| ==> IsSpace(s[i])
  {
    var a := |s| - |t|;
    assert s[a..][..|r|] == s[a..a + |r|];
    forall i | a + |r| <= i < |s| ensures IsSpace(s[i]) {
      assert s[i] == t[i - a];
    }
  }

  /** Trimming twice is trimming once. */
  lemma TrimIdempotent(s: string)
    ensures Trim(Trim(s)) == Trim(s)
  {
    var r := Trim(s);
    assert TrimStart(r) == r;
    assert TrimEnd(r) == r;
  }

  /** A string without whitespace is its own trim. */
  lemma TrimNoSpace(s: string)
    requires forall i :: 0 <= i < |s| ==> !IsSpace(s[i])
    ensures Trim(s) == s
  {
    assert TrimStart(s) == s;
    assert TrimEnd(s) == s;
  }

  /** One leading space before a word without spaces is trimmed away. */
  lemma TrimLeadingSpace(c: char, w: string)
    requires IsSpace(c)
    requires forall i :: 0 <= i < |w| ==> !IsSpace(w[i])
    ensures Trim([c] + w) == w
  {
    var s := [c] + w;
    assert TrimStart(w) == w by {
      assert w == [] || !IsSpace(w[0]);
    }
    assert TrimStart(s) == w by {
      assert s[0] == c && s[1..] == w;
    }
    assert TrimEnd(w) == w by {
      TrimNoSpace(w);
    }
  }

  predicate StartsWith(s: string, prefix: string)
  {
    |prefix| <= |s| && s[..|prefix|] == prefix
  }

  /** `if (bad) list.push(item)`, as a value. */
  function Push<T(!new)>(list: seq<T>, bad: bool, item: T): (r: seq<T>)
    ensures forall x :: x in r <==> x in list || (bad && x == item)
  {
    if bad then list + [item] else list
  }

  /** `s.includes(t)`, computed by scanning from the left. */
  predicate Contains(s: string, t: string)
    decreases |s|
  {
    if |t| > |s| then false
    else if s[..|t|] == t then true
    else Contains(s[1..], t)
  }

  /** `t` occurs in `s` at offset `i`. */
  predicate OccursAt(s: string, t: string, i: int)
  {
    0 <= i && i + |t| <= |s| && s[i..i + |t|] == t
  }

  /** The scanning definition of `includes` agrees with "occurs at some offset". */
  lemma {:induction false} ContainsIff(s: string, t: string)
    ensures Contains(s, t) <==> exists i :: OccursAt(s, t, i)
    decreases |s|
  {
    if |t| > |s| {
    } else if s[..|t|] == t {
      assert OccursAt(s, t, 0);
    } else {
      ContainsIff(s[1..], t);
      if Contains(s[1..], t) {
        var i :| OccursAt(s[1..], t, i);
        assert s[1..][i..i + |t|] == s[i + 1..i + 1 + |t|];
        assert OccursAt(s, t, i + 1);
      } else {
        forall i | OccursAt(s, t, i) ensures false {
          if i != 0 {
            assert s[1..][i - 1..i - 1 + |t|] == s[i..i + |t|];
            assert OccursAt(s[1..], t, i - 1);
          }
        }
      }
    }
  }

  /** Whatever occurs in `s` also occurs in any string that has `s` as a part. */
  lemma ContainsInConcat(a: string, s: string, b: string, t: string)
    requires Contains(s, t)
    ensures Contains(a + s + b, t)
  {
    ContainsIff(s, t);
    var i :| OccursAt(s, t, i);
    var w := a + s + b;
    assert w[|a| + i..|a| + i + |t|] == s[i..i + |t|];
    assert OccursAt(w, t, |a| + i);
    ContainsIff(w, t);
  }

  /** `parts.join(sep)`. */
  function Join(parts: seq<string>, sep: string): (r: string)
    ensures parts == [] ==> r == ""
    ensures |parts| == 1 ==> r == parts[0]
  {
    if parts == [] then ""
    else if |parts| == 1 then parts[0]
    else parts[0] + sep + Join(parts[1..], sep)
  }

  /** The index of the first `c` in `s`. */
  function CharIndex(s: string, c: char): (i: nat)
    requires c in s
    ensures i < |s| && s[i] == c && c !in s[..i]
  {
    if s[0] == c then 0
    else
      var j := CharIndex(s[1..], c);
      assert s[..j + 1] == [s[0]] + s[1..][..j];
      1 + j
  }

  /** The first `c` of `pre + [c] + post` is the one after `pre` when `pre`
      holds none. */
  lemma CharIndexAfter(pre: string, c: char, post: string)
    requires c !in pre
    ensures c in pre + [c] + post && CharIndex(pre + [c] + post, c) == |pre|
  {
    var s := pre + [c] + post;
    assert s[..|pre|] == pre;
    CharIndexAt(s, c, |pre|);
  }

  /** `s.split(sep)` for a one-character separator: the pieces between
      separators, empty ones included. */
  function Split(s: string, sep: char): (parts: seq<string>)
    ensures |parts| >= 1
    ensures forall i :: 0 <= i < |parts| ==> sep !in parts[i]
    decreases |s|
  {
    if sep !in s then [s]
    else
      var i := CharIndex(s, sep);
      [s[..i]] + Split(s[i + 1..], sep)
  }

  /** Joining the pieces with the separator gives the string back. */
  lemma {:induction false} JoinSplit(s: string, sep: char)
    ensures Join(Split(s, sep), [sep]) == s
    decreases |s|
  {
    if sep !in s {
    } else {
      var i := CharIndex(s, sep);
      var tail := Split(s[i + 1..], sep);
      JoinSplit(s[i + 1..], sep);
      assert Split(s, sep) == [s[..i]] + tail;
      assert ([s[..i]] + tail)[1..] == tail;
      assert Join(Split(s, sep), [sep]) == s[..i] + [sep] + Join(tail, [sep]);
      assert s == s[..i] + [sep] + s[i + 1..];
    }
  }

  /** Splitting a join of separator-free pieces gives the pieces back. */
  lemma {:induction false} SplitJoin(parts: seq<string>, sep: char)
    requires |parts| >= 1
    requires forall i :: 0 <= i < |parts| ==> sep !in parts[i]
    ensures Split(Join(parts, [sep]), sep) == parts
  {
    if |parts| > 1 {
      SplitJoinStep(parts, sep);
      SplitJoin(parts[1..], sep);
      assert parts == [parts[0]] + parts[1..];
    }
  }

  /** The split of a join peels off the first piece when it holds no
      separator. */
  lemma SplitJoinStep(parts: seq<string>, sep: char)
    requires |parts| > 1 && sep !in parts[0]
    ensures Split(Join(parts, [sep]), sep) == [parts[0]] + Split(Join(parts[1..], [sep]), sep)
  {
    var s := Join(parts, [sep]);
    var rest := Join(parts[1..], [sep]);
    var k := |parts[0]|;
    assert s == parts[0] + [sep] + rest;
    assert s[..k] == parts[0];
    CharIndexAt(s, sep, k);
    assert s[k + 1..] == rest;
  }

  /** The first `c` is at `k` when `s[k]` is `c` and no earlier character is. */
  lemma CharIndexAt(s: string, c: char, k: nat)
    requires k < |s| && s[k] == c && c !in s[..k]
    ensures c in s && CharIndex(s, c) == k
  {
  }

  // ---------------------------------------------------------------------
  // Numbers rendered as decimal text, and parsed back
  // ---------------------------------------------------------------------

  function DigitChar(d: nat): (c: char)
    requires d < 10
    ensures IsDigit(c)
  {
    ('0' as int + d) as char
  }

  function DigitValue(c: char): (d: nat)
    requires IsDigit(c)
    ensures d < 10 && DigitChar(d) == c
  {
    c as int - '0' as int
  }

  /** The decimal rendering of a natural number (no leading zeros). */
  function NatToString(n: nat): (s: string)
    ensures |s| >= 1
    ensures forall i :: 0 <= i < |s| ==> IsDigit(s[i])
    decreases n
  {
    if n < 10 then [DigitChar(n)] else NatToString(n / 10) + [DigitChar(n % 10)]
  }

  /** Template-literal interpolation of an integer: `${n}`. */
  function IntToString(n: int): (s: string)
    ensures |s| >= 1
    ensures n >= 0 ==> IsDigit(s[0])
    ensures n < 0 ==> s[0] == '-'
  {
    if n >= 0 then NatToString(n) else "-" + NatToString(-n)
  }

  /** The value of a run of decimal digits. */
  function DigitsValue(ds: string): nat
    requires forall i :: 0 <= i < |ds| ==> IsDigit(ds[i])
  {
    if ds == [] then 0 else DigitsValue(ds[..|ds| - 1]) * 10 + DigitValue(ds[|ds| - 1])
  }

  /** The longest prefix of `s` made of digits. */
  function DigitPrefix(s: string): (r: string)
    ensures |r| <= |s| && r == s[..|r|]
    ensures forall i :: 0 <= i < |r| ==> IsDigit(r[i])
    ensures |r| < |s| ==> !IsDigit(s[|r|])
  {
    if s != [] && IsDigit(s[0]) then [s[0]] + DigitPrefix(s[1..]) else []
  }

  lemma {:induction false} NatToStringValue(n: nat)
    ensures DigitsValue(NatToString(n)) == n
    decreases n
  {
    if n >= 10 {
      NatToStringValue(n / 10);
      var s := NatToString(n / 10) + [DigitChar(n % 10)];
      assert s[..|s| - 1] == NatToString(n / 10);
    }
  }

  lemma DigitPrefixOfDigits(ds: string, rest: string)
    requires forall i :: 0 <= i < |ds| ==> IsDigit(ds[i])
    requires rest == [] || !IsDigit(rest[0])
    ensures DigitPrefix(ds + rest) == ds
    decreases |ds|
  {
    if ds != [] {
      assert (ds + rest)[1..] == ds[1..] + rest;
      DigitPrefixOfDigits(ds[1..], rest);
    }
  }

  /** The value of the digits at the start of `body`; `None` when there are none. */
  function ParseDigits(body: string): (r: Option<nat>)
    ensures r.None? <==> (body == [] || !IsDigit(body[0]))
  {
    var ds := DigitPrefix(body);
    if ds == [] then None else Some(DigitsValue(ds))
  }

  /** A letter or digit read as a digit: 0-9, then 10-35 for `a`-`z` and
      `A`-`Z`; 36 for any other character. */
  function RadixDigitValue(c: char): (d: nat)
    ensures d <= 36
  {
    if IsDigit(c) then c as int - '0' as int
    else if IsLower(c) then c as int - 'a' as int + 10
    else if IsUpper(c) then c as int - 'A' as int + 10
    else 36
  }

  predicate IsRadixDigit(c: char, radix: nat)
  {
    RadixDigitValue(c) < radix
  }

  /** The longest prefix of `s` made of digits of base `radix`. */
  function RadixPrefix(s: string, radix: nat): (r: string)
    ensures |r| <= |s| && r == s[..|r|]
    ensures forall i :: 0 <= i < |r| ==> IsRadixDigit(r[i], radix)
    ensures |r| < |s| ==> !IsRadixDigit(s[|r|], radix)
  {
    if s != [] && IsRadixDigit(s[0], radix) then [s[0]] + RadixPrefix(s[1..], radix) else []
  }

  /** The value of a run of base-`radix` digits. */
  function RadixValue(ds: string, radix: nat): nat
  {
    if ds == [] then 0 else RadixValue(ds[..|ds| - 1], radix) * radix + RadixDigitValue(ds[|ds| - 1])
  }

  /** `s` starts with `0` and the letter `x`, `o` or `b` in either case. */
  predicate HasRadixPrefix(s: string, letter: char)
  {
    |s| >= 2 && s[0] == '0' && (s[1] == letter || s[1] == UpperChar(letter))
  }

  /** The unsigned part of `parseInt` without a radix: after `0x` or `0X` the
      longest run of hexadecimal digits, otherwise the longest run of decimal
      digits; `None` (NaN) when that run is empty. */
  function ParseMagnitude(body: string): Option<nat>
  {
    if HasRadixPrefix(body, 'x') then
      var hs := RadixPrefix(body[2..], 16);
      if hs == [] then None else Some(RadixValue(hs, 16))
    else ParseDigits(body)
  }

  /** An optional sign followed by an unsigned `parseInt` magnitude. */
  function ParseSigned(t: string): Option<int>
  {
    var signed := t != [] && (t[0] == '-' || t[0] == '+');
    match ParseMagnitude(if signed then t[1..] else t)
    case None => None
    case Some(m) => Some(if signed && t[0] == '-' then -(m as int) else m as int)
  }

  /** `parseInt(s)` on a string, with no radix argument: skip leading
      whitespace, read an optional sign, then a `0x`-prefixed hexadecimal or a
      decimal run of digits; no digits is NaN (`None`). */
  function ParseIntString(s: string): Option<int>
  {
    ParseSigned(TrimStart(s))
  }

  /** `parseInt` reads a `0x` prefix as hexadecimal: "0x7D0" is the year 2000. */
  lemma {:induction false} HexYear()
    ensures ParseIntString("0x7D0") == Some(2000)
  {
    var s := "0x7D0";
    TrimStartPlain(s);
    assert HasRadixPrefix(s, 'x') && s[2..] == "7D0";
    HexDigits7D0();
    assert ParseMagnitude(s) == Some(2000);
    ParseSignedUnsigned(s);
  }

  /** A sign goes before the `0x` prefix: "-0x10" is -16. */
  lemma {:induction false} NegativeHex()
    ensures ParseIntString("-0x10") == Some(-16)
  {
    var t := "-0x10";
    TrimStartPlain(t);
    NegativeHexMagnitude(t[1..]);
    ParseSignedNegative(t, 16);
  }

  lemma {:induction false} NegativeHexMagnitude(u: string)
    requires u == "0x10"
    ensures ParseMagnitude(u) == Some(16)
  {
    assert HasRadixPrefix(u, 'x') && u[2..] == "10";
    HexDigits10();
  }

  /** The hexadecimal digits 10 are 16. */
  lemma HexDigits10()
    ensures RadixPrefix("10", 16) == "10" && RadixValue("10", 16) == 16
  {
    RadixPrefixAll("10", 16);
    RadixValueSnoc("1", '0', 16);
    RadixValueSnoc([], '1', 16);
    assert "10" == "1" + ['0'] && "1" == [] + ['1'];
  }

  /** The hexadecimal digits 7D0 are 2000. */
  lemma HexDigits7D0()
    ensures RadixPrefix("7D0", 16) == "7D0" && RadixValue("7D0", 16) == 2000
  {
    RadixPrefixAll("7D0", 16);
    RadixValueSnoc("7D", '0', 16);
    RadixValueSnoc("7", 'D', 16);
    RadixValueSnoc([], '7', 16);
    assert "7D0" == "7D" + ['0'] && "7D" == "7" + ['D'] && "7" == [] + ['7'];
  }

  /** A text that does not start with whitespace is its own `TrimStart`. */
  lemma TrimStartPlain(s: string)
    requires s != [] && !IsSpace(s[0])
    ensures TrimStart(s) == s
  {
  }

  /** A text that neither starts nor ends with whitespace is its own `Trim`. */
  lemma TrimPlain(s: string)
    requires s != [] && !IsSpace(s[0]) && !IsSpace(s[|s| - 1])
    ensures Trim(s) == s
  {
    TrimStartPlain(s);
  }

  /** Without a leading sign, `parseInt` reads the magnitude alone. */
  lemma ParseSignedUnsigned(t: string)
    requires t != [] && t[0] != '-' && t[0] != '+'
    ensures ParseSigned(t) == (match ParseMagnitude(t) case None => None case Some(m) => Some(m as int))
  {
  }

  lemma ParseSignedNegative(t: string, m: nat)
    requires t != [] && t[0] == '-' && ParseMagnitude(t[1..]) == Some(m)
    ensures ParseSigned(t) == Some(-(m as int))
  {
  }

  lemma {:induction false} RadixPrefixAll(s: string, radix: nat)
    requires forall i :: 0 <= i < |s| ==> IsRadixDigit(s[i], radix)
    ensures RadixPrefix(s, radix) == s
  {
    if s != [] {
      RadixPrefixAll(s[1..], radix);
    }
  }

  lemma RadixValueSnoc(ds: string, c: char, radix: nat)
    ensures RadixValue(ds + [c], radix) == RadixValue(ds, radix) * radix + RadixDigitValue(c)
  {
    assert (ds + [c])[..|ds|] == ds;
  }

  /** What may follow a rendered integer without changing what `parseInt`
      reads: nothing, or a character that is neither a digit nor the `x` of
      a hexadecimal prefix. */
  predicate EndsInteger(suffix: string)
  {
    suffix == [] || (!IsDigit(suffix[0]) && suffix[0] != 'x' && suffix[0] != 'X')
  }

  lemma ParseDigitsRoundTrip(m: nat, suffix: string)
    requires EndsInteger(suffix)
    ensures ParseMagnitude(NatToString(m) + suffix) == Some(m)
  {
    var d := NatToString(m);
    var s := d + suffix;
    assert !HasRadixPrefix(s, 'x') by {
      if |d| >= 2 {
        assert s[1] == d[1] && IsDigit(d[1]);
      } else if |s| >= 2 {
        assert s[1] == suffix[0];
      }
    }
    NatToStringValue(m);
    DigitPrefixOfDigits(d, suffix);
  }

  /** Reading back the rendering of an integer gives the integer: the
      "<year>-01-01" strings the discovery code builds carry their year. */
  lemma IntToStringRoundTrip(n: int, suffix: string)
    requires EndsInteger(suffix)
    ensures ParseIntString(IntToString(n) + suffix) == Some(n)
  {
    var t := IntToString(n) + suffix;
    if n >= 0 {
      assert t == NatToString(n) + suffix;
      UnsignedRoundTrip(n, suffix);
    } else {
      assert t == "-" + NatToString(-n) + suffix;
      NegativeRoundTrip(-n, suffix);
    }
  }

  lemma {:induction false} UnsignedRoundTrip(m: nat, suffix: string)
    requires EndsInteger(suffix)
    ensures ParseIntString(NatToString(m) + suffix) == Some(m)
  {
    var d := NatToString(m);
    var s := d + suffix;
    assert s[0] == d[0] && IsDigit(s[0]);
    TrimStartPlain(s);
    ParseSignedUnsigned(s);
    ParseDigitsRoundTrip(m, suffix);
  }

  lemma {:induction false} NegativeRoundTrip(m: nat, suffix: string)
    requires EndsInteger(suffix)
    ensures ParseIntString("-" + NatToString(m) + suffix) == Some(-(m as int))
  {
    var s := "-" + NatToString(m) + suffix;
    TrimStartPlain(s);
    assert s[0] == '-' && ParseMagnitude(s[1..]) == Some(m) by {
      assert s[1..] == NatToString(m) + suffix;
      ParseDigitsRoundTrip(m, suffix);
    }
  }

  /** `Math.trunc` on reals: the integer part, rounding toward zero. */
  function Trunc(x: real): (r: int)
    ensures x >= 0.0 ==> r as real <= x < r as real + 1.0
    ensures x < 0.0 ==> r as real - 1.0 < x <= r as real
  {
    if x >= 0.0 then x.Floor else -((-x).Floor)
  }

  /** `parseInt(v)` on a request value reads `String(v)`. A number's text
      reads back as its integer part (exponent renderings of very large or
      very small numbers are not modelled); an array's text is its items
      joined with commas; booleans, null, undefined and objects give NaN. */
  function ParseInt(v: JsValue): (r: Option<int>)
    ensures v.Num? ==> r == Some(Trunc(v.n))
    ensures v.Bool? || v.Null? || v.Undefined? || v.Obj? ==> r == None
  {
    match v
    case Num(n) => Some(Trunc(n))
    case Str(s) => ParseIntString(s)
    case Arr(_) => ParseIntString(ToText(v))
    case _ => None
  }

  /** A text that starts with a letter other than a hexadecimal-looking
      prefix is NaN to `parseInt`. */
  lemma LetterTextNaN(s: string)
    requires s != [] && IsLetter(s[0])
    ensures ParseIntString(s) == None
  {
    assert TrimStart(s) == s by {
      assert !IsSpace(s[0]);
    }
  }

  /** `parseInt(v)` is `parseInt(String(v))` for every value. */
  lemma ParseIntOfText(v: JsValue)
    ensures ParseInt(v) == ParseIntString(ToText(v))
  {
    match v
    case Num(n) => NumberTextParses(n);
    case Str(_) =>
    case Arr(_) =>
    case Undefined => LetterTextNaN("undefined");
    case Null => LetterTextNaN("null");
    case Bool(b) => LetterTextNaN(if b then "true" else "false");
    case Obj(_) => ObjectTextNaN();
  }

  /** The text of a number reads back as its integer part. */
  lemma {:induction false} NumberTextParses(n: real)
    ensures ParseIntString(NumberText(n)) == Some(Trunc(n))
  {
    if n < 0.0 {
      NegativeNumberTextParses(n);
    } else {
      UnsignedNumberTextParses(n);
    }
  }

  lemma {:induction false} UnsignedNumberTextParses(n: real)
    requires n >= 0.0
    ensures ParseIntString(NumberText(n)) == Some(Trunc(n))
  {
    var k: nat := n.Floor;
    var b := FractionText(Fraction(n));
    assert NumberText(n) == NatToString(k) + b by {
      assert UnsignedText(n) == NatToString(k) + b;
    }
    assert Trunc(n) == k;
    UnsignedRoundTrip(k, b);
  }

  lemma {:induction false} NegativeNumberTextParses(n: real)
    requires n < 0.0
    ensures ParseIntString(NumberText(n)) == Some(Trunc(n))
  {
    var k: nat := (-n).Floor;
    var b := FractionText(Fraction(-n));
    assert NumberText(n) == "-" + NatToString(k) + b by {
      assert UnsignedText(-n) == NatToString(k) + b;
    }
    assert Trunc(n) == -(k as int);
    NegativeRoundTrip(k, b);
  }

  lemma ObjectTextNaN()
    ensures ParseIntString("[object Object]") == None
  {
    var s := "[object Object]";
    TrimStartPlain(s);
  }

  /** An array of one year reads as that year. */
  lemma ArrayYear()
    ensures ParseInt(Arr([Num(2000.0)])) == Some(2000)
  {
    var v := Arr([Num(2000.0)]);
    assert ItemsText(v, 1) == "";
    assert ToText(v) == IntToString(2000);
    IntToStringRoundTrip(2000, []);
    assert IntToString(2000) + [] == IntToString(2000);
  }

  function Pow10(k: nat): (r: nat)
    ensures r >= 1
  {
    if k == 0 then 1 else 10 * Pow10(k - 1)
  }

  /** `m` times ten to the power `k`. */
  function Scale(m: real, k: int): real
  {
    if k >= 0 then m * Pow10(k) as real else m / Pow10(-k) as real
  }

  /** An exponent at the start of `s`: `e` or `E`, an optional sign and at
      least one digit. Its value and the number of characters it takes. */
  function ExponentPart(s: string): (r: Option<(int, nat)>)
    ensures r.Some? ==> 2 <= r.value.1 <= |s|
  {
    if s == [] || (s[0] != 'e' && s[0] != 'E') then None
    else
      var t := s[1..];
      var signed := t != [] && (t[0] == '-' || t[0] == '+');
      var ds := DigitPrefix(if signed then t[1..] else t);
      if ds == [] then None
      else
        var k := DigitsValue(ds) as int;
        Some((if signed && t[0] == '-' then -k else k, 1 + (if signed then 1 else 0) + |ds|))
  }

  /** The longest unsigned decimal literal `digits[.digits][exponent]` at the
      start of `body` (either digit run may be empty, not both): its value
      and its length; `None` when no digit comes before the exponent. */
  function DecimalPrefix(body: string): (r: Option<(real, nat)>)
    ensures r.Some? ==> 1 <= r.value.1 <= |body|
  {
    var whole := DigitPrefix(body);
    var rest := body[|whole|..];
    var dot := rest != [] && rest[0] == '.';
    var frac := if dot then DigitPrefix(rest[1..]) else [];
    if whole == [] && frac == [] then None
    else
      var used := |whole| + (if dot then 1 + |frac| else 0);
      var mag := DigitsValue(whole) as real + DigitsValue(frac) as real / Pow10(|frac|) as real;
      match ExponentPart(body[used..])
      case None => Some((mag, used))
      case Some(e) => Some((Scale(mag, e.0), used + e.1))
  }

  /** `parseFloat(s)`: skip leading whitespace, read an optional sign and the
      longest decimal literal, exponent included; `None` (NaN) when it has no
      digits. */
  function ParseFloatString(s: string): Option<real>
  {
    var t := TrimStart(s);
    var signed := t != [] && (t[0] == '-' || t[0] == '+');
    match DecimalPrefix(if signed then t[1..] else t)
    case None => None
    case Some(d) => Some(if signed && t[0] == '-' then -d.0 else d.0)
  }

  /** `parseFloat` reads the exponent: "5e1" is 50. */
  lemma FloatExponent()
    ensures ParseFloatString("5e1") == Some(50.0)
  {
    var s := "5e1";
    TrimStartPlain(s);
    FiveE1();
  }

  /** The literal "5e1" is 50 and takes all three characters. */
  lemma FiveE1()
    ensures DecimalPrefix("5e1") == Some((50.0, 3))
  {
    var s := "5e1";
    assert DigitPrefix(s) == "5" by {
      assert s == "5" + "e1";
      DigitPrefixOfDigits("5", "e1");
    }
    assert s[1..] == "e1";
    assert ExponentPart("e1") == Some((1, 2)) by {
      assert "e1"[1..] == "1";
      DigitPrefixOfDigits("1", []);
      assert "1" + [] == "1";
    }
  }

  /** `parseFloat(v)` on a request value reads `String(v)`. A number's text
      reads back as the number. An array's text starts with its first item's
      text, and the comma or the end that follows it ends every literal, so an
      array reads as its first item and an empty one as NaN. Booleans, null,
      undefined and objects give NaN. */
  function ParseFloat(v: JsValue): (r: Option<real>)
    ensures v.Num? ==> r == Some(v.n)
    ensures v.Bool? || v.Null? || v.Undefined? || v.Obj? ==> r == None
    ensures v.Str? ==> r == ParseFloatString(v.s)
    ensures v.Arr? && v.items == [] ==> r == None
    ensures v.Arr? && v.items != [] ==> r == ParseFloat(v.items[0])
  {
    match v
    case Num(n) => Some(n)
    case Str(s) => ParseFloatString(s)
    case Arr(items) => if items == [] then None else ParseFloat(items[0])
    case _ => None
  }

  /** The result of ECMAScript ToNumber: NaN, a finite value or an infinity. */
  datatype Numeric = NaN | Finite(value: real) | PosInfinity | NegInfinity

  /** All of `ds` is a non-empty run of base-`radix` digits: its value. */
  function WholeRadix(ds: string, radix: nat): Numeric
  {
    if ds != [] && RadixPrefix(ds, radix) == ds then Finite(RadixValue(ds, radix) as real) else NaN
  }

  /** ECMAScript StringToNumber: the trimmed text is empty (0), `Infinity`
      with an optional sign, an unsigned `0x`, `0o` or `0b` integer, or a
      signed decimal literal that takes the whole text; anything else is NaN. */
  function StringToNumber(s: string): Numeric
  {
    var t := Trim(s);
    if t == [] then Finite(0.0)
    else if HasRadixPrefix(t, 'x') then WholeRadix(t[2..], 16)
    else if HasRadixPrefix(t, 'o') then WholeRadix(t[2..], 8)
    else if HasRadixPrefix(t, 'b') then WholeRadix(t[2..], 2)
    else if t == "Infinity" || t == "+Infinity" then PosInfinity
    else if t == "-Infinity" then NegInfinity
    else SignedDecimal(t)
  }

  /** A whole text that is an optional sign and a decimal literal: its
      value; NaN otherwise. */
  function SignedDecimal(t: string): Numeric
  {
    var signed := t != [] && (t[0] == '-' || t[0] == '+');
    var body := if signed then t[1..] else t;
    var d := DecimalPrefix(body);
    if d.Some? && d.value.1 == |body| then Finite(if signed && t[0] == '-' then -d.value.0 else d.value.0)
    else NaN
  }

  /** ECMAScript ToNumber, as `<` and `>` apply it. Booleans are 0 and 1,
      null is 0, undefined and plain objects ("[object Object]") are NaN. An
      array goes through its text: an empty one is "" (0), a single item
      reads as that item's text, and two or more items always hold a comma
      (NaN). */
  function ToNumber(v: JsValue): (r: Numeric)
    ensures v.Num? ==> r == Finite(v.n)
    ensures v.Null? ==> r == Finite(0.0)
    ensures v.Undefined? || v.Obj? ==> r == NaN
    ensures v.Bool? ==> r == Finite(if v.b then 1.0 else 0.0)
    ensures v.Str? ==> r == StringToNumber(v.s)
    ensures v.Arr? && v.items == [] ==> r == Finite(0.0)
    ensures v.Arr? && |v.items| > 1 ==> r == NaN
    ensures v.Arr? && |v.items| == 1 ==> r == ItemToNumber(v.items[0])
    decreases v, 0
  {
    match v
    case Undefined => NaN
    case Null => Finite(0.0)
    case Bool(b) => Finite(if b then 1.0 else 0.0)
    case Num(n) => Finite(n)
    case Str(s) => StringToNumber(s)
    case Arr(items) =>
      if items == [] then Finite(0.0)
      else if |items| > 1 then NaN
      else ItemToNumber(items[0])
    case Obj(_) => NaN
  }

  /** ToNumber of the text of a lone array item: null and undefined are
      "" (0), "true", "false" and "[object Object]" are NaN, and any other
      item's text converts as the item itself does. */
  function ItemToNumber(x: JsValue): (r: Numeric)
    ensures x.Undefined? || x.Null? ==> r == Finite(0.0)
    ensures x.Bool? || x.Obj? ==> r == NaN
    ensures x.Num? ==> r == Finite(x.n)
    ensures x.Str? ==> r == StringToNumber(x.s)
    decreases x, 1
  {
    match x
    case Undefined => Finite(0.0)
    case Null => Finite(0.0)
    case Bool(_) => NaN
    case Obj(_) => NaN
    case _ => ToNumber(x)
  }

  /** `Number` reads a hexadecimal text: "0x7D0" is 2000. */
  lemma HexNumber(s: string)
    requires s == "0x7D0"
    ensures StringToNumber(s) == Finite(2000.0)
  {
    TrimPlain(s);
    HexText(s);
    assert s[2..] == "7D0";
    HexDigits7D0();
  }

  lemma HexText(s: string)
    requires Trim(s) == s && HasRadixPrefix(s, 'x')
    ensures StringToNumber(s) == WholeRadix(s[2..], 16)
  {
  }

  /** `Number` reads a one-item array as its item: [1800] is 1800. */
  lemma ArrayNumber()
    ensures ToNumber(Arr([Num(1800.0)])) == Finite(1800.0)
  {
  }

  /** `x < c` for a JavaScript value `x` and a number `c`; NaN compares false. */
  predicate LessThan(x: JsValue, c: real)
  {
    match ToNumber(x)
    case Finite(n) => n < c
    case NegInfinity => true
    case _ => false
  }

  /** `x > c` for a JavaScript value `x` and a number `c`; NaN compares false. */
  predicate GreaterThan(x: JsValue, c: real)
  {
    match ToNumber(x)
    case Finite(n) => n > c
    case PosInfinity => true
    case _ => false
  }

  /** `x > y` on two converted numbers; false when either is NaN. */
  predicate NumericGreater(x: Numeric, y: Numeric)
  {
    match (x, y)
    case (Finite(a), Finite(b)) => a > b
    case (PosInfinity, Finite(_)) => true
    case (PosInfinity, NegInfinity) => true
    case (Finite(_), NegInfinity) => true
    case _ => false
  }

  /** `Math.round`: the nearest integer, halves rounded up. */
  function Round(x: real): (r: int)
    ensures r as real - 0.5 <= x < r as real + 0.5
  {
    (x + 0.5).Floor
  }

  /** `Math.round(a / b)` for integers and a positive divisor, computed
      exactly: the integer nearest to a/b, halves rounded up. */
  function RoundDiv(a: int, b: int): (r: int)
    requires b > 0
    ensures 2 * b * r - b <= 2 * a < 2 * b * r + b
  {
    var q := (2 * a + b) / (2 * b);
    assert 2 * a + b == q * (2 * b) + (2 * a + b) % (2 * b);
    assert q * (2 * b) == 2 * b * q;
    q
  }

  /** One more copy of `x`. */
  lemma MulSucc(n: int, x: int)
    ensures (n + 1) * x == n * x + x
  {
  }

  lemma MulMono(a: int, b: int, d: int)
    requires a <= b && d >= 0
    ensures a * d <= b * d
  {
    assert b * d - a * d == (b - a) * d;
  }

  lemma MulCancelLess(a: int, b: int, d: int)
    requires d > 0 && a * d < b * d
    ensures a < b
  {
    if b <= a {
      MulMono(b, a, d);
    }
  }

  /** Rounding a mean keeps it between integer bounds of the averaged values. */
  lemma RoundDivBounds(a: int, b: int, lo: int, hi: int)
    requires b > 0 && b * lo <= a <= b * hi
    ensures lo <= RoundDiv(a, b) <= hi
  {
    var r := RoundDiv(a, b);
    if r > hi {
      MulMono(hi + 1, r, 2 * b);
    }
    if r < lo {
      MulMono(r + 1, lo, 2 * b);
    }
  }

  /** `Math.ceil(a / b)` for a non-negative count and a positive divisor. */
  function CeilDiv(a: nat, b: nat): (r: nat)
    requires b > 0
    ensures r * b >= a
    ensures r > 0 ==> (r - 1) * b < a
  {
    if a == 0 then 0 else (a - 1) / b + 1
  }

  /** `Math.ceil(x * pct / 100)` for an integer `x`, computed exactly. */
  function CeilPercent(x: int, pct: nat): (r: int)
    ensures r * 100 >= x * pct
    ensures (r - 1) * 100 < x * pct
  {
    -((-(x * pct)) / 100)
  }

  /** The digits after the decimal point of a fraction in [0, 1), at most
      `fuel` of them, stopping when nothing is left. */
  function FractionDigits(f: real, fuel: nat): (r: string)
    requires 0.0 <= f < 1.0
    ensures forall i :: 0 <= i < |r| ==> IsDigit(r[i])
    decreases fuel
  {
    if f == 0.0 || fuel == 0 then ""
    else
      var d := (f * 10.0).Floor;
      [DigitChar(d)] + FractionDigits(f * 10.0 - d as real, fuel - 1)
  }

  /** How many fraction digits a rendering keeps. */
  const MaxFractionDigits: nat := 20

  /** The text after the integer part of a number: nothing for a whole
      number, otherwise a point and the digits of the fraction (cut after 20). */
  function FractionText(f: real): (r: string)
    requires 0.0 <= f < 1.0
    ensures EndsInteger(r)
    ensures r == "" <==> f == 0.0
  {
    if f == 0.0 then "" else "." + FractionDigits(f, MaxFractionDigits)
  }

  /** The fractional part of a non-negative number. */
  function Fraction(m: real): (f: real)
    requires m >= 0.0
    ensures 0.0 <= f < 1.0
    ensures f == 0.0 <==> m == m.Floor as real
  {
    m - m.Floor as real
  }

  /** `String(m)` for a non-negative number in plain decimal notation. */
  function UnsignedText(m: real): string
    requires m >= 0.0
  {
    NatToString(m.Floor) + FractionText(Fraction(m))
  }

  /** `String(n)` for a number in plain decimal notation: the sign, the
      integer part and, when there is a fraction, a point and its digits. */
  function NumberText(n: real): string
  {
    if n < 0.0 then "-" + UnsignedText(-n) else UnsignedText(n)
  }

  /** A whole number is rendered as its integer's decimal text. */
  lemma WholeNumberText(k: int)
    ensures NumberText(k as real) == IntToString(k)
  {
    if k < 0 {
      assert (-(k as real)).Floor == -k;
    } else {
      assert (k as real).Floor == k;
    }
  }

  /** A number is whole exactly when its negation is. */
  lemma NegationKeepsWhole(x: real)
    ensures (x == x.Floor as real) == (-x == (-x).Floor as real)
  {
    if x == x.Floor as real {
      assert (-x).Floor == -x.Floor;
    }
    if -x == (-x).Floor as real {
      assert x.Floor == -(-x).Floor;
    }
  }

  /** A number with a fraction is rendered with a decimal point. */
  lemma FractionalNumberText(n: real)
    requires n != n.Floor as real
    ensures '.' in NumberText(n)
  {
    var m := if n < 0.0 then -n else n;
    NegationKeepsWhole(n);
    assert m != m.Floor as real;
    var a, b := NatToString(m.Floor), FractionText(Fraction(m));
    assert UnsignedText(m) == a + b && b != "" && b[0] == '.';
    assert (a + b)[|a|] == '.';
    if n < 0.0 {
      assert NumberText(n) == "-" + (a + b);
      assert ("-" + (a + b))[|a| + 1] == '.';
    }
  }

  /** `String(v)` and `${v}`. */
  function ToText(v: JsValue): string
    decreases v, 1
  {
    match v
    case Undefined => "undefined"
    case Null => "null"
    case Bool(b) => if b then "true" else "false"
    case Num(n) => NumberText(n)
    case Str(s) => s
    case Arr(_) => ItemsText(v, 0)
    case Obj(_) => "[object Object]"
  }

  /** `items.join(",")` from index `i`: null and undefined become empty. */
  function ItemsText(v: JsValue, i: nat): string
    requires v.Arr? && i <= |v.items|
    decreases v, 0, |v.items| - i
  {
    if i == |v.items| then ""
    else
      var x := v.items[i];
      (if i > 0 then "," else "") + (if x.Undefined? || x.Null? then "" else ToText(x)) + ItemsText(v, i + 1)
  }

  /** `xs.slice(0, n)`: a negative end counts from the back of the list. */
  function SliceTo<T>(xs: seq<T>, n: int): (r: seq<T>)
    ensures |r| == (if n >= 0 then (if n < |xs| then n else |xs|)
                    else (if |xs| + n > 0 then |xs| + n else 0))
    ensures r == xs[..|r|]
  {
    var end := if n >= 0 then (if n < |xs| then n else |xs|)
               else (if |xs| + n > 0 then |xs| + n else 0);
    xs[..end]
  }
}

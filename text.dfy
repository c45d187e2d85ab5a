/** String primitives the two scripts rely on, stated as Python defines them:
    `str.split(sep)`, `re.split("\s+", s)`, `str.strip()`, `int(s)` on a
    string and `"%s" % n` on an integer. */
module TextUtil {

  datatype Option<T> = None | Some(value: T)

  /** The outcome of a step that the scripts abort with an exception. */
  datatype Result<T, E> = Ok(value: T) | Err(error: E)

  /** Python's notion of a whitespace character (`str.isspace`, the `\s`
      class of a `str` pattern and the set `str.strip()` removes). */
  predicate IsSpace(c: char) {
    var n := c as int;
    n == 0x20 || (0x09 <= n <= 0x0D) || (0x1C <= n <= 0x1F) || n == 0x85 || n == 0xA0
    || n == 0x1680 || (0x2000 <= n <= 0x200A) || n == 0x2028 || n == 0x2029
    || n == 0x202F || n == 0x205F || n == 0x3000
  }

  predicate NoSpace(s: string) {
    forall i | 0 <= i < |s| :: !IsSpace(s[i])
  }

  /** The concatenation of a sequence of strings (successive `write` calls). */
  function Concat(parts: seq<string>): string {
    if parts == [] then "" else parts[0] + Concat(parts[1..])
  }

  lemma {:induction false} ConcatAppend(a: seq<string>, b: seq<string>)
    ensures Concat(a + b) == Concat(a) + Concat(b)
  {
    if a == [] {
      assert a + b == b;
    } else {
      assert (a + b)[1..] == a[1..] + b;
      ConcatAppend(a[1..], b);
    }
  }

  // ---------------------------------------------------------------------
  // str.split(sep) with an explicit one-character separator

  /** `s.split(c)`: the pieces between occurrences of `c`, empty pieces kept. */
  function SplitOn(s: string, c: char): (r: seq<string>)
    ensures |r| >= 1
  {
    if s == [] then [""]
    else
      var rest := SplitOn(s[1..], c);
      if s[0] == c then [""] + rest else [[s[0]] + rest[0]] + rest[1..]
  }

  /** `c.join(fields)`. */
  function Join(fields: seq<string>, c: char): string
    requires |fields| >= 1
  {
    if |fields| == 1 then fields[0] else fields[0] + [c] + Join(fields[1..], c)
  }

  /** No piece of a split contains the separator. */
  lemma {:induction false} SplitOnPiecesFree(s: string, c: char)
    ensures forall i | 0 <= i < |SplitOn(s, c)| :: c !in SplitOn(s, c)[i]
  {
    if s != [] {
      SplitOnPiecesFree(s[1..], c);
    }
  }

  /** Joining the pieces with the separator gives the string back. */
  lemma {:induction false} JoinSplitOn(s: string, c: char)
    ensures Join(SplitOn(s, c), c) == s
  {
    if s != [] {
      var rest := SplitOn(s[1..], c);
      JoinSplitOn(s[1..], c);
      if s[0] == c {
        assert SplitOn(s, c)[1..] == rest;
      } else {
        var r := SplitOn(s, c);
        assert r[0] == [s[0]] + rest[0];
        if |rest| == 1 {
          assert Join(r, c) == [s[0]] + rest[0];
        } else {
          assert r[1..] == rest[1..];
          assert Join(rest, c) == rest[0] + [c] + Join(rest[1..], c);
        }
      }
    }
  }

  lemma {:induction false} SplitOnPrefix(w: string, c: char, t: string)
    requires c !in w
    ensures SplitOn(w + t, c) == [w + SplitOn(t, c)[0]] + SplitOn(t, c)[1..]
    decreases |w|
  {
    if w != [] {
      assert (w + t)[1..] == w[1..] + t;
      SplitOnPrefix(w[1..], c, t);
      assert [w[0]] + (w[1..] + SplitOn(t, c)[0]) == w + SplitOn(t, c)[0];
    } else {
      var r := SplitOn(t, c);
      assert w + t == t && w + r[0] == r[0];
      assert [r[0]] + r[1..] == r;
    }
  }

  /** Splitting a join of separator-free fields gives the fields back. */
  lemma {:induction false} SplitOnJoin(fields: seq<string>, c: char)
    requires |fields| >= 1
    requires forall i | 0 <= i < |fields| :: c !in fields[i]
    ensures SplitOn(Join(fields, c), c) == fields
  {
    if |fields| == 1 {
      SplitOnPrefix(fields[0], c, "");
      assert fields[0] + "" == fields[0];
    } else {
      var t := Join(fields[1..], c);
      SplitOnJoin(fields[1..], c);
      assert ([c] + t)[1..] == t;
      assert SplitOn([c] + t, c) == [""] + fields[1..];
      assert fields[0] + [c] + t == fields[0] + ([c] + t);
      SplitOnPrefix(fields[0], c, [c] + t);
      assert fields[0] + "" == fields[0];
      assert fields == [fields[0]] + fields[1..];
    }
  }

  /** A separator-free field followed by the separator splits off as one piece. */
  lemma SplitAfterField(w: string, c: char, t: string)
    requires c !in w
    ensures SplitOn(w + [c] + t, c) == [w] + SplitOn(t, c)
  {
    assert ([c] + t)[1..] == t;
    SplitOnPrefix(w, c, [c] + t);
    assert w + [c] + t == w + ([c] + t);
    assert w + "" == w;
  }

  /** A separator-free string is a single piece. */
  lemma SplitLastField(w: string, c: char)
    requires c !in w
    ensures SplitOn(w, c) == [w]
  {
    SplitOnPrefix(w, c, "");
    assert w + "" == w;
  }

  // ---------------------------------------------------------------------
  // re.split("\s+", s)

  /** `s` with its leading whitespace removed (`lstrip`). */
  function DropSpaces(s: string): (r: string)
    ensures |r| <= |s| && r == s[|s| - |r|..]
    ensures r == [] || !IsSpace(r[0])
    ensures s != [] && IsSpace(s[0]) ==> |r| < |s|
  {
    if s != [] && IsSpace(s[0]) then DropSpaces(s[1..]) else s
  }

  /** `re.split("\s+", s)`: the pieces between maximal whitespace runs; a
      leading (trailing) run yields an empty first (last) piece. */
  function SplitWs(s: string): (r: seq<string>)
    ensures |r| >= 1
    decreases |s|
  {
    if s == [] then [""]
    else if IsSpace(s[0]) then [""] + SplitWs(DropSpaces(s))
    else
      var rest := SplitWs(s[1..]);
      [[s[0]] + rest[0]] + rest[1..]
  }

  /** Every piece is whitespace-free, and a piece that has a neighbour on
      both sides is non-empty. */
  lemma {:induction false} SplitWsPieces(s: string)
    ensures forall i | 0 <= i < |SplitWs(s)| :: NoSpace(SplitWs(s)[i])
    ensures forall i | 0 < i < |SplitWs(s)| - 1 :: SplitWs(s)[i] != ""
    ensures s != [] && !IsSpace(s[0]) ==> SplitWs(s)[0] != ""
    decreases |s|
  {
    if s == [] {
    } else if IsSpace(s[0]) {
      SplitWsPieces(DropSpaces(s));
      var r := SplitWs(s);
      var d := DropSpaces(s);
      assert r[1..] == SplitWs(d);
      assert NoSpace("");
      forall i | 0 < i < |r| - 1 ensures r[i] != "" {
        if i == 1 {
          assert d != [];
        }
      }
    } else {
      SplitWsPieces(s[1..]);
      var rest := SplitWs(s[1..]);
      var r := SplitWs(s);
      assert r[0] == [s[0]] + rest[0];
      assert r[1..] == rest[1..];
      forall i | 0 <= i < |r| ensures NoSpace(r[i]) {
        if i == 0 {
          forall j | 0 <= j < |r[0]| ensures !IsSpace(r[0][j]) {
            if j > 0 {
              assert r[0][j] == rest[0][j - 1];
            }
          }
        } else {
          assert r[i] == rest[i];
        }
      }
      forall i | 0 < i < |r| - 1 ensures r[i] != "" {
        assert r[i] == rest[i];
      }
    }
  }

  lemma {:induction false} SplitWsWordPrefix(w: string, t: string)
    requires NoSpace(w)
    ensures SplitWs(w + t) == [w + SplitWs(t)[0]] + SplitWs(t)[1..]
    decreases |w|
  {
    if w == [] {
      var r := SplitWs(t);
      assert w + t == t && w + r[0] == r[0];
      assert [r[0]] + r[1..] == r;
    } else {
      assert (w + t)[1..] == w[1..] + t;
      assert NoSpace(w[1..]) by {
        forall j | 0 <= j < |w[1..]| ensures !IsSpace(w[1..][j]) {
          assert w[1..][j] == w[j + 1];
        }
      }
      assert !IsSpace(w[0]) && (w + t)[0] == w[0];
      SplitWsWordPrefix(w[1..], t);
      var st := SplitWs(t);
      var rest := SplitWs(w[1..] + t);
      assert rest[0] == w[1..] + st[0] && rest[1..] == st[1..];
      assert SplitWs(w + t) == [[w[0]] + rest[0]] + rest[1..];
      assert [w[0]] + (w[1..] + st[0]) == w + st[0];
    }
  }

  /** Splitting fields joined by single spaces gives the fields back, provided
      the fields are whitespace-free and no inner field is empty. */
  lemma {:induction false} SplitWsJoin(fields: seq<string>)
    requires |fields| >= 1
    requires forall i | 0 <= i < |fields| :: NoSpace(fields[i])
    requires forall i | 0 < i < |fields| - 1 :: fields[i] != ""
    ensures SplitWs(Join(fields, ' ')) == fields
  {
    if |fields| == 1 {
      SplitWsWordPrefix(fields[0], "");
      assert fields[0] + "" == fields[0];
    } else {
      var t := Join(fields[1..], ' ');
      SplitWsJoin(fields[1..]);
      JoinStart(fields[1..]);
      BlankBeforeWord(t, fields[1..]);
      assert fields[0] + [' '] + t == fields[0] + ([' '] + t);
      SplitWsWordPrefix(fields[0], [' '] + t);
      assert fields[0] + "" == fields[0];
      assert fields == [fields[0]] + fields[1..];
    }
  }

  /** Fields joined by spaces start with the first field's first character. */
  lemma JoinStart(fields: seq<string>)
    requires |fields| >= 1
    requires forall i | 0 <= i < |fields| :: NoSpace(fields[i])
    requires |fields| > 1 ==> fields[0] != ""
    ensures Join(fields, ' ') == [] || !IsSpace(Join(fields, ' ')[0])
  {
    if |fields| > 1 {
      var t := Join(fields, ' ');
      assert t == fields[0] + [' '] + Join(fields[1..], ' ');
      assert t[0] == fields[0][0];
    }
  }

  lemma BlankBeforeWord(t: string, rest: seq<string>)
    requires t == [] || !IsSpace(t[0])
    requires SplitWs(t) == rest
    ensures SplitWs([' '] + t) == [""] + rest
  {
    assert ([' '] + t)[1..] == t;
    assert DropSpaces([' '] + t) == t;
  }

  // ---------------------------------------------------------------------
  // int(s) and "%s" % n

  /** `s.strip()`. */
  function Strip(s: string): (r: string)
    ensures |r| <= |s|
    ensures r == [] || (!IsSpace(r[0]) && !IsSpace(r[|r| - 1]))
  {
    var t := DropSpaces(s);
    DropTrailingSpaces(t)
  }

  function DropTrailingSpaces(s: string): (r: string)
    requires s == [] || !IsSpace(s[0])
    ensures |r| <= |s| && r == s[..|r|]
    ensures r == [] || (!IsSpace(r[0]) && !IsSpace(r[|r| - 1]))
  {
    if s != [] && IsSpace(s[|s| - 1]) then DropTrailingSpaces(s[..|s| - 1]) else s
  }

  predicate IsDigit(c: char) { '0' <= c <= '9' }

  function DigitValue(c: char): (d: nat)
    requires IsDigit(c)
    ensures d < 10
  {
    (c as int) - ('0' as int)
  }

  function DigitChar(d: nat): (c: char)
    requires d < 10
    ensures IsDigit(c) && DigitValue(c) == d
  {
    (('0' as int) + d) as char
  }

  /** A literal Python's `int` accepts after the sign: decimal digits with
      single underscores allowed between two digits. */
  predicate WellFormedDigits(s: string) {
    && |s| > 0
    && IsDigit(s[0]) && IsDigit(s[|s| - 1])
    && (forall i | 0 <= i < |s| :: IsDigit(s[i]) || s[i] == '_')
    && NoDoubleUnderscore(s)
  }

  /** No two adjacent underscores. */
  predicate NoDoubleUnderscore(s: string) {
    |s| < 2 || (!(s[0] == '_' && s[1] == '_') && NoDoubleUnderscore(s[1..]))
  }

  lemma {:induction false} DigitsNoDoubleUnderscore(s: string)
    requires forall i | 0 <= i < |s| :: IsDigit(s[i])
    ensures NoDoubleUnderscore(s)
  {
    if |s| >= 2 {
      assert IsDigit(s[0]);
      DigitsNoDoubleUnderscore(s[1..]);
    }
  }

  /** The decimal value of a digit string, underscores ignored. */
  function DigitsValue(s: string): nat
    requires forall i | 0 <= i < |s| :: IsDigit(s[i]) || s[i] == '_'
  {
    if s == [] then 0
    else if s[|s| - 1] == '_' then DigitsValue(s[..|s| - 1])
    else 10 * DigitsValue(s[..|s| - 1]) + DigitValue(s[|s| - 1])
  }

  /** `int(s)` on a string: surrounding whitespace ignored, an optional sign,
      then a well-formed digit literal; None where Python raises ValueError. */
  function ParseInt(s: string): (r: Option<int>)
    ensures r.Some? ==> |Strip(s)| > 0
  {
    ParseSigned(Strip(s))
  }

  /** The literal after stripping: an optional sign, then digits. */
  function ParseSigned(t: string): (r: Option<int>)
    ensures r.Some? ==> |t| > 0
  {
    if |t| > 0 && (t[0] == '-' || t[0] == '+') then
      var body := t[1..];
      if WellFormedDigits(body) then
        var v: int := DigitsValue(body);
        Some(if t[0] == '-' then -v else v)
      else None
    else if WellFormedDigits(t) then Some(DigitsValue(t))
    else None
  }

  function NatToString(n: nat): (s: string)
    ensures |s| > 0
    ensures forall i | 0 <= i < |s| :: IsDigit(s[i])
  {
    if n < 10 then [DigitChar(n)] else NatToString(n / 10) + [DigitChar(n % 10)]
  }

  /** `"%s" % n` for a Python int. */
  function IntToString(n: int): string {
    if n < 0 then "-" + NatToString(-n) else NatToString(n)
  }

  lemma {:induction false} NatToStringValue(n: nat)
    ensures DigitsValue(NatToString(n)) == n
  {
    var s := NatToString(n);
    if n >= 10 {
      NatToStringValue(n / 10);
      assert s[..|s| - 1] == NatToString(n / 10);
    }
  }

  lemma NatToStringWellFormed(n: nat)
    ensures WellFormedDigits(NatToString(n))
  {
    DigitsNoDoubleUnderscore(NatToString(n));
  }

  lemma StripNoEdgeSpace(s: string)
    requires s != [] && !IsSpace(s[0]) && !IsSpace(s[|s| - 1])
    ensures Strip(s) == s
  {
  }

  /** Parsing the decimal rendering of an integer gives the integer back;
      surrounding whitespace (a trailing newline, say) does not matter. */
  lemma {:induction false} ParseIntToString(n: int, pad: string)
    requires forall i | 0 <= i < |pad| :: IsSpace(pad[i])
    ensures ParseInt(IntToString(n) + pad) == Some(n)
  {
    if n < 0 {
      var m: nat := -n;
      var s := "-" + NatToString(m);
      assert IntToString(n) + pad == s + pad;
      ParseNegative(m, pad);
    } else {
      assert IntToString(n) == NatToString(n);
      ParseNatural(n, pad);
    }
  }

  lemma ParseNatural(m: nat, pad: string)
    requires forall i | 0 <= i < |pad| :: IsSpace(pad[i])
    ensures ParseInt(NatToString(m) + pad) == Some(m)
  {
    var d := NatToString(m);
    NatToStringValue(m);
    NatToStringWellFormed(m);
    assert IsDigit(d[0]) && !IsSpace(d[0]);
    StripTrailingPad(d, pad);
    assert ParseSigned(d) == Some(m);
  }

  lemma ParseNegative(m: nat, pad: string)
    requires m > 0
    requires forall i | 0 <= i < |pad| :: IsSpace(pad[i])
    ensures ParseInt("-" + NatToString(m) + pad) == Some(-(m as int))
  {
    var d := NatToString(m);
    var s := "-" + d;
    NatToStringValue(m);
    NatToStringWellFormed(m);
    assert s[|s| - 1] == d[|d| - 1];
    assert s[0] == '-' && s[1..] == d;
    assert ParseSigned(s) == Some(-(m as int));
    StripTrailingPad(s, pad);
  }

  lemma {:induction false} StripTrailingPad(s: string, pad: string)
    requires s != [] && !IsSpace(s[0]) && !IsSpace(s[|s| - 1])
    requires forall i | 0 <= i < |pad| :: IsSpace(pad[i])
    ensures Strip(s + pad) == s
    decreases |pad|
  {
    assert DropSpaces(s + pad) == s + pad;
    if pad == [] {
      assert s + pad == s;
    } else {
      var p := pad[..|pad| - 1];
      assert (s + pad)[..|s + pad| - 1] == s + p;
      StripTrailingPad(s, p);
      assert DropSpaces(s + p) == s + p;
    }
  }
}

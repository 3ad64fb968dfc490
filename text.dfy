/** The string primitives the Go code takes from its standard library:
    strings.TrimSpace, strings.Trim with a one-character cut set,
    strings.Split and strings.Join with a one-character separator,
    strings.HasPrefix, strconv.Atoi and fmt's %d. */
module Text {
  import opened Wrappers

  const MinInt64: int := -0x8000_0000_0000_0000
  const MaxInt64: int := 0x7FFF_FFFF_FFFF_FFFF

  // ---------------------------------------------------------------------
  // Searching

  /** Index of the first `c` in `s`, or |s| when there is none. */
  function IndexOf(s: string, c: char): (r: nat)
    ensures r <= |s|
    ensures r < |s| ==> s[r] == c
    ensures c !in s[..r]
    ensures r == |s| <==> c !in s
  {
    if |s| == 0 then 0
    else if s[0] == c then 0
    else
      var k := IndexOf(s[1..], c);
      assert s[..1 + k] == [s[0]] + s[1..][..k];
      1 + k
  }

  /** Index of the last `c` in `s`, or None when there is none. */
  function LastIndexOf(s: string, c: char): (r: Option<nat>)
    ensures r.None? <==> c !in s
    ensures r.Some? ==> r.value < |s| && s[r.value] == c && c !in s[r.value + 1..]
  {
    if |s| == 0 then None
    else if s[|s| - 1] == c then Some(|s| - 1)
    else
      var r := LastIndexOf(s[..|s| - 1], c);
      assert s == s[..|s| - 1] + [s[|s| - 1]];
      if r.Some? then
        assert s[r.value + 1..] == s[..|s| - 1][r.value + 1..] + [s[|s| - 1]];
        r
      else r
  }

  predicate HasPrefix(s: string, prefix: string) {
    |prefix| <= |s| && s[..|prefix|] == prefix
  }

  // ---------------------------------------------------------------------
  // Trimming

  /** Go's unicode.IsSpace: the Latin-1 spaces and the other White_Space code points. */
  predicate IsSpace(c: char) {
    c == '\t' || c == '\n' || c == '\U{000B}' || c == '\U{000C}' || c == '\r' || c == ' '
    || c == '\U{0085}' || c == '\U{00A0}' || c == '\U{1680}'
    || ('\U{2000}' <= c <= '\U{200A}')
    || c == '\U{2028}' || c == '\U{2029}' || c == '\U{202F}' || c == '\U{205F}' || c == '\U{3000}'
  }

  function TrimLeftSpace(s: string): (r: string)
    ensures |r| <= |s| && r == s[|s| - |r|..]
    ensures |r| > 0 ==> !IsSpace(r[0])
    ensures forall i :: 0 <= i < |s| - |r| ==> IsSpace(s[i])
  {
    if |s| > 0 && IsSpace(s[0]) then TrimLeftSpace(s[1..]) else s
  }

  function TrimRightSpace(s: string): (r: string)
    ensures |r| <= |s| && r == s[..|r|]
    ensures |r| > 0 ==> !IsSpace(r[|r| - 1])
    ensures forall i :: |r| <= i < |s| ==> IsSpace(s[i])
  {
    if |s| > 0 && IsSpace(s[|s| - 1]) then TrimRightSpace(s[..|s| - 1]) else s
  }

  /** strings.TrimSpace: the longest infix of `s` that neither starts nor ends with a space. */
  function TrimSpace(s: string): (r: string)
    ensures |r| <= |s|
    ensures |r| > 0 ==> !IsSpace(r[0]) && !IsSpace(r[|r| - 1])
  {
    TrimRightSpace(TrimLeftSpace(s))
  }

  /** TrimSpace cuts white space and nothing else, and only at the two ends. */
  lemma TrimSpaceInfix(s: string)
    ensures exists a, b :: 0 <= a <= b <= |s| && TrimSpace(s) == s[a..b]
                           && forall i :: 0 <= i < a || b <= i < |s| ==> IsSpace(s[i])
  {
    var l := TrimLeftSpace(s);
    var r := TrimRightSpace(l);
    var a, b := |s| - |l|, |s| - |l| + |r|;
    assert r == s[a..b] by {
      assert l == s[a..] && r == l[..|r|];
    }
    assert forall i :: 0 <= i < a || b <= i < |s| ==> IsSpace(s[i]) by {
      forall i | b <= i < |s| ensures IsSpace(s[i]) {
        assert s[i] == l[i - a];
      }
    }
    assert 0 <= a <= b <= |s| && TrimSpace(s) == s[a..b];
  }

  lemma TrimSpaceNoop(s: string)
    requires |s| > 0 ==> !IsSpace(s[0]) && !IsSpace(s[|s| - 1])
    ensures TrimSpace(s) == s
  {
  }

  function TrimLeftChar(s: string, c: char): (r: string)
    ensures |r| <= |s| && r == s[|s| - |r|..]
    ensures |r| > 0 ==> r[0] != c
    ensures forall i :: 0 <= i < |s| - |r| ==> s[i] == c
  {
    if |s| > 0 && s[0] == c then TrimLeftChar(s[1..], c) else s
  }

  function TrimRightChar(s: string, c: char): (r: string)
    ensures |r| <= |s| && r == s[..|r|]
    ensures |r| > 0 ==> r[|r| - 1] != c
    ensures forall i :: |r| <= i < |s| ==> s[i] == c
  {
    if |s| > 0 && s[|s| - 1] == c then TrimRightChar(s[..|s| - 1], c) else s
  }

  /** strings.Trim(s, [c]): drop every leading and trailing `c`. */
  function TrimChar(s: string, c: char): (r: string)
    ensures |r| > 0 ==> r[0] != c && r[|r| - 1] != c
  {
    TrimRightChar(TrimLeftChar(s, c), c)
  }

  /** Trim cuts the character `c` and nothing else, and only at the two ends. */
  lemma TrimCharInfix(s: string, c: char)
    ensures exists a, b :: 0 <= a <= b <= |s| && TrimChar(s, c) == s[a..b]
                           && forall i :: 0 <= i < a || b <= i < |s| ==> s[i] == c
  {
    var l := TrimLeftChar(s, c);
    var r := TrimRightChar(l, c);
    var a, b := |s| - |l|, |s| - |l| + |r|;
    assert r == s[a..b] by {
      assert l == s[a..] && r == l[..|r|];
    }
    assert forall i :: 0 <= i < a || b <= i < |s| ==> s[i] == c by {
      forall i | b <= i < |s| ensures s[i] == c {
        assert s[i] == l[i - a];
      }
    }
    assert 0 <= a <= b <= |s| && TrimChar(s, c) == s[a..b];
  }

  /** Appending one more cut character never changes what Trim returns. */
  lemma {:induction false} TrimRightCharAppend(s: string, c: char)
    ensures TrimRightChar(s + [c], c) == TrimRightChar(s, c)
  {
    assert (s + [c])[..|s + [c]| - 1] == s;
  }

  lemma {:induction false} TrimLeftCharAppend(s: string, c: char)
    ensures TrimLeftChar(s + [c], c) == TrimLeftChar(s, c) + [c]
            || (TrimLeftChar(s, c) == [] && TrimLeftChar(s + [c], c) == [])
  {
    if |s| > 0 && s[0] == c {
      assert (s + [c])[1..] == s[1..] + [c];
      TrimLeftCharAppend(s[1..], c);
    } else if |s| == 0 {
      assert s + [c] == [c];
      assert TrimLeftChar([c], c) == TrimLeftChar([], c);
    } else {
      assert (s + [c])[0] == s[0];
    }
  }

  lemma TrimCharAppend(s: string, c: char)
    ensures TrimChar(s + [c], c) == TrimChar(s, c)
  {
    TrimLeftCharAppend(s, c);
    var l := TrimLeftChar(s, c);
    if TrimLeftChar(s + [c], c) == l + [c] {
      TrimRightCharAppend(l, c);
    }
  }

  // ---------------------------------------------------------------------
  // Splitting and joining

  /** strings.Split(s, [sep]): the pieces between the separators, at least one. */
  function Split(s: string, sep: char): (parts: seq<string>)
    ensures |parts| >= 1
    ensures forall i :: 0 <= i < |parts| ==> sep !in parts[i]
    decreases |s|
  {
    var i := IndexOf(s, sep);
    if i == |s| then [s] else [s[..i]] + Split(s[i + 1..], sep)
  }

  /** strings.Join(parts, sep). */
  function Join(parts: seq<string>, sep: string): string
  {
    if |parts| == 0 then ""
    else if |parts| == 1 then parts[0]
    else parts[0] + sep + Join(parts[1..], sep)
  }

  /** Splitting undoes joining, as long as no piece holds the separator. */
  lemma {:induction false} SplitJoin(parts: seq<string>, sep: char)
    requires |parts| >= 1
    requires forall i :: 0 <= i < |parts| ==> sep !in parts[i]
    ensures Split(Join(parts, [sep]), sep) == parts
  {
    if |parts| > 1 {
      var rest := parts[1..];
      assert Join(parts, [sep]) == parts[0] + [sep] + Join(rest, [sep]);
      assert sep !in parts[0];
      SplitFirst(parts[0], Join(rest, [sep]), sep);
      assert forall i :: 0 <= i < |rest| ==> rest[i] == parts[i + 1];
      SplitJoin(rest, sep);
      assert parts == [parts[0]] + rest;
    }
  }

  /** A separator-free head followed by the separator is the first piece. */
  lemma SplitFirst(a: string, rest: string, sep: char)
    requires sep !in a
    ensures Split(a + [sep] + rest, sep) == [a] + Split(rest, sep)
  {
    var s := a + [sep] + rest;
    SeparatorAfterHead(a, rest, sep);
    assert s[..|a|] == a;
    assert s[|a| + 1..] == rest;
  }

  /** The first separator after a separator-free head is the one right after it. */
  lemma SeparatorAfterHead(a: string, rest: string, sep: char)
    requires sep !in a
    ensures IndexOf(a + [sep] + rest, sep) == |a|
  {
    var s := a + [sep] + rest;
    assert s[..|a|] == a && s[|a|] == sep;
  }

  /** Joining undoes splitting. */
  lemma {:induction false} JoinSplit(s: string, sep: char)
    ensures Join(Split(s, sep), [sep]) == s
    decreases |s|
  {
    var i := IndexOf(s, sep);
    if i < |s| {
      var rest := s[i + 1..];
      var tail := Split(rest, sep);
      JoinSplit(rest, sep);
      assert Split(s, sep) == [s[..i]] + tail;
      assert ([s[..i]] + tail)[1..] == tail;
      assert Join([s[..i]] + tail, [sep]) == s[..i] + [sep] + Join(tail, [sep]);
      assert s == s[..i] + [sep] + rest;
    }
  }

  lemma {:induction false} IndexOfConcat(a: string, b: string, c: char)
    requires c !in a
    ensures IndexOf(a + b, c) == |a| + IndexOf(b, c)
  {
    if |a| > 0 {
      assert (a + b)[1..] == a[1..] + b;
      IndexOfConcat(a[1..], b, c);
    } else {
      assert a + b == b;
    }
  }

  /** Joining a header, items and a trailer: every item is followed by the separator. */
  function Terminated(items: seq<string>, sep: string): string
  {
    if |items| == 0 then "" else items[0] + sep + Terminated(items[1..], sep)
  }

  lemma {:induction false} JoinFramed(head: string, items: seq<string>, tail: string, sep: string)
    decreases |items|
    ensures Join([head] + items + [tail], sep) == head + sep + Terminated(items, sep) + tail
  {
    if |items| == 0 {
      assert [head] + items + [tail] == [head, tail];
    } else {
      var rest := items[1..];
      assert ([head] + items + [tail])[1..] == [items[0]] + rest + [tail];
      JoinFramed(items[0], rest, tail, sep);
    }
  }

  // ---------------------------------------------------------------------
  // Decimal numbers

  predicate IsDigit(c: char) { '0' <= c <= '9' }

  predicate AllDigits(s: string) { forall i :: 0 <= i < |s| ==> IsDigit(s[i]) }

  function DigitChar(d: nat): (c: char)
    requires d < 10
    ensures IsDigit(c) && (c as int) - ('0' as int) == d
  {
    (('0' as int) + d) as char
  }

  /** The value of a digit string, most significant first. */
  function DigitsValue(s: string): nat
    requires AllDigits(s)
  {
    if |s| == 0 then 0 else DigitsValue(s[..|s| - 1]) * 10 + ((s[|s| - 1] as int) - ('0' as int))
  }

  /** fmt's %d of a natural number: no sign, no leading zero. */
  function NatDigits(n: nat): (s: string)
    ensures |s| >= 1 && AllDigits(s)
    ensures |s| > 1 ==> s[0] != '0'
  {
    if n < 10 then [DigitChar(n)] else NatDigits(n / 10) + [DigitChar(n % 10)]
  }

  lemma {:induction false} NatDigitsValue(n: nat)
    ensures DigitsValue(NatDigits(n)) == n
  {
    if n >= 10 {
      NatDigitsValue(n / 10);
      var s := NatDigits(n);
      assert s[..|s| - 1] == NatDigits(n / 10);
    }
  }

  /** Different numbers print differently. */
  lemma NatDigitsInjective(m: nat, n: nat)
    requires NatDigits(m) == NatDigits(n)
    ensures m == n
  {
    NatDigitsValue(m);
    NatDigitsValue(n);
  }

  /** fmt's %d of an integer. */
  function Itoa(n: int): (s: string)
    ensures |s| >= 1
    ensures n < 0 <==> s[0] == '-'
  {
    if n < 0 then "-" + NatDigits(-n) else NatDigits(n)
  }

  datatype NumError = SyntaxError | RangeError

  /** An optional sign followed by at least one decimal digit, and nothing else. */
  predicate IsDecimal(s: string)
  {
    |s| > 0 && (AllDigits(s) || (|s| > 1 && (s[0] == '-' || s[0] == '+') && AllDigits(s[1..])))
  }

  /** The value a decimal string denotes, its sign applied. */
  function DecimalValue(s: string): int
    requires IsDecimal(s)
  {
    if s[0] == '-' then
      assert !IsDigit(s[0]);
      -(DigitsValue(s[1..]) as int)
    else if s[0] == '+' then
      assert !IsDigit(s[0]);
      DigitsValue(s[1..])
    else DigitsValue(s)
  }

  /** strconv.Atoi on a 64-bit platform: an optional sign, at least one decimal
      digit and nothing else; a value outside the int64 range is a range error. */
  function Atoi(s: string): (r: Result<int, NumError>)
    ensures r.Success? <==> IsDecimal(s) && MinInt64 <= DecimalValue(s) <= MaxInt64
    ensures r.Success? ==> r.value == DecimalValue(s)
    ensures r.Failure? ==> (r.error == RangeError <==> IsDecimal(s))
  {
    if |s| == 0 then Failure(SyntaxError)
    else
      var digits := if s[0] == '-' || s[0] == '+' then s[1..] else s;
      if |digits| == 0 || !AllDigits(digits) then
        assert !IsDecimal(s) by {
          if s[0] == '-' || s[0] == '+' { assert !IsDigit(s[0]); }
        }
        Failure(SyntaxError)
      else
        var v: int := if s[0] == '-' then 0 - DigitsValue(digits) as int else DigitsValue(digits) as int;
        if v < MinInt64 || MaxInt64 < v then Failure(RangeError) else Success(v)
  }

  /** Reading back what %d printed gives the same number, over the whole int64 range. */
  lemma ItoaAtoi(n: int)
    requires MinInt64 <= n <= MaxInt64
    ensures Atoi(Itoa(n)) == Success(n)
  {
    if n < 0 {
      NatDigitsValue(-n);
      assert Itoa(n)[1..] == NatDigits(-n);
    } else {
      NatDigitsValue(n);
    }
  }
}

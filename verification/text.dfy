/** Splitting and joining text, and the decimal numbers that strconv prints and reads. */
module Text {
  import opened Results

  predicate Lacks(s: string, c: char) {
    c !in s
  }

  /** strings.Split for a one-byte separator. */
  function Split(s: string, sep: char): (parts: seq<string>)
    ensures |parts| >= 1
    ensures forall i :: 0 <= i < |parts| ==> Lacks(parts[i], sep)
  {
    if s == "" then [""]
    else
      var rest := Split(s[1..], sep);
      if s[0] == sep then [""] + rest else [[s[0]] + rest[0]] + rest[1..]
  }

  function Join(parts: seq<string>, sep: char): string {
    if |parts| == 0 then ""
    else if |parts| == 1 then parts[0]
    else parts[0] + [sep] + Join(parts[1..], sep)
  }

  lemma {:induction false} JoinSplit(s: string, sep: char)
    ensures Join(Split(s, sep), sep) == s
  {
    if s != "" {
      JoinSplit(s[1..], sep);
      var rest := Split(s[1..], sep);
      if s[0] == sep {
        assert Split(s, sep)[1..] == rest;
      } else {
        assert Split(s, sep)[1..] == rest[1..];
        assert Split(s, sep)[0] == [s[0]] + rest[0];
      }
    }
  }

  lemma {:induction false} SplitStep(c: char, s: string, sep: char)
    ensures Split([c] + s, sep) == if c == sep then [""] + Split(s, sep) else [[c] + Split(s, sep)[0]] + Split(s, sep)[1..]
  {
    assert ([c] + s)[1..] == s;
  }

  lemma {:induction false} SplitConcat(q: string, r: string, sep: char)
    ensures Split(q + [sep] + r, sep) == Split(q, sep) + Split(r, sep)
  {
    if q == "" {
      SplitStep(sep, r, sep);
      assert q + [sep] + r == [sep] + r;
    } else {
      var c, q' := q[0], q[1..];
      var tail := q' + [sep] + r;
      SplitConcat(q', r, sep);
      assert q == [c] + q';
      assert q + [sep] + r == [c] + tail;
      SplitStep(c, tail, sep);
      SplitStep(c, q', sep);
      HeadConcat(c, Split(q', sep), Split(r, sep));
    }
  }

  lemma HeadConcat(c: char, a: seq<string>, b: seq<string>)
    requires |a| >= 1
    ensures [""] + (a + b) == [""] + a + b
    ensures [[c] + (a + b)[0]] + (a + b)[1..] == [[c] + a[0]] + a[1..] + b
  {
  }

  lemma {:induction false} SplitWhole(s: string, sep: char)
    requires Lacks(s, sep)
    ensures Split(s, sep) == [s]
  {
    if s != "" {
      assert s[0] in s;
      assert forall c :: c in s[1..] ==> c in s;
      SplitWhole(s[1..], sep);
      assert s == [s[0]] + s[1..];
    }
  }

  lemma {:induction false} SplitJoin(parts: seq<string>, sep: char)
    requires |parts| >= 1
    requires forall i :: 0 <= i < |parts| ==> Lacks(parts[i], sep)
    ensures Split(Join(parts, sep), sep) == parts
  {
    SplitWhole(parts[0], sep);
    if |parts| > 1 {
      SplitJoin(parts[1..], sep);
      SplitConcat(parts[0], Join(parts[1..], sep), sep);
      assert parts == [parts[0]] + parts[1..];
    }
  }

  lemma {:induction false} JoinConcat(a: seq<string>, b: seq<string>, sep: char)
    requires |a| >= 1 && |b| >= 1
    ensures Join(a + b, sep) == Join(a, sep) + [sep] + Join(b, sep)
  {
    if |a| == 1 {
      assert (a + b)[1..] == b;
    } else {
      JoinConcat(a[1..], b, sep);
      assert (a + b)[1..] == a[1..] + b;
      calc {
        Join(a + b, sep);
        a[0] + [sep] + (Join(a[1..], sep) + [sep] + Join(b, sep));
        (a[0] + [sep] + Join(a[1..], sep)) + [sep] + Join(b, sep);
      }
    }
  }

  lemma SplitEnds(q: string, sep: char)
    ensures Split(q + [sep], sep) == Split(q, sep) + [""]
  {
    assert q + [sep] + "" == q + [sep];
    SplitConcat(q, "", sep);
  }

  /** The parts with more text at the end of the last. */
  function LongerLast(parts: seq<string>, tail: string): seq<string>
    requires parts != []
  {
    parts[..|parts| - 1] + [parts[|parts| - 1] + tail]
  }

  lemma {:induction false} LongerAfterEmpty(parts: seq<string>, tail: string)
    requires parts != []
    ensures LongerLast([""] + parts, tail) == [""] + LongerLast(parts, tail)
  {
    assert ([""] + parts)[..|parts|] == [""] + parts[..|parts| - 1];
  }

  lemma {:induction false} LongerAfterChar(c: char, parts: seq<string>, tail: string)
    requires parts != []
    ensures LongerLast([[c] + parts[0]] + parts[1..], tail) == [[c] + LongerLast(parts, tail)[0]] + LongerLast(parts, tail)[1..]
  {
    var all := [[c] + parts[0]] + parts[1..];
    if |parts| == 1 {
      assert [c] + parts[0] + tail == [c] + (parts[0] + tail);
    } else {
      assert all[..|parts| - 1] == [[c] + parts[0]] + parts[1..|parts| - 1];
      assert LongerLast(parts, tail)[1..] == parts[1..|parts| - 1] + [parts[|parts| - 1] + tail];
    }
  }

  lemma {:induction false} SplitAppendStep(c: char, s: string, tail: string, sep: char)
    requires Split(s + tail, sep) == LongerLast(Split(s, sep), tail)
    ensures Split([c] + (s + tail), sep) == LongerLast(Split([c] + s, sep), tail)
  {
    SplitStep(c, s + tail, sep);
    SplitStep(c, s, sep);
    LongerAfterEmpty(Split(s, sep), tail);
    LongerAfterChar(c, Split(s, sep), tail);
  }

  /** Text without the separator only lengthens the last part. */
  lemma {:induction false} SplitAppend(s: string, tail: string, sep: char)
    requires Lacks(tail, sep)
    ensures Split(s + tail, sep) == LongerLast(Split(s, sep), tail)
  {
    if s == "" {
      SplitWhole(tail, sep);
      assert s + tail == tail && LongerLast([""], tail) == [tail];
    } else {
      var c, rest := s[0], s[1..];
      SplitAppend(rest, tail, sep);
      SplitAppendStep(c, rest, tail, sep);
      assert s == [c] + rest;
      assert s + tail == [c] + (rest + tail);
    }
  }

  // ------------------------------------------------------------------ cutting

  /** bytes.Cut: the text before and after the first separator. */
  function Cut(s: string, sep: char): (r: Option<(string, string)>)
    ensures r.Some? ==> s == r.value.0 + [sep] + r.value.1 && Lacks(r.value.0, sep)
    ensures r.None? ==> Lacks(s, sep)
  {
    if s == "" then None
    else if s[0] == sep then Some(("", s[1..]))
    else match Cut(s[1..], sep)
      case None => None
      case Some(parts) => Some(([s[0]] + parts.0, parts.1))
  }

  lemma {:induction false} CutFirst(head: string, tail: string, sep: char)
    requires Lacks(head, sep)
    ensures Cut(head + [sep] + tail, sep) == Some((head, tail))
  {
    var s := head + [sep] + tail;
    if head == "" {
      assert s[0] == sep && s[1..] == tail;
    } else {
      assert s[1..] == head[1..] + [sep] + tail;
      assert head[0] in head && forall c :: c in head[1..] ==> c in head;
      CutFirst(head[1..], tail, sep);
      assert head == [head[0]] + head[1..];
    }
  }

  /** White space among single bytes. */
  predicate IsSpace(c: char) {
    c == ' ' || 9 <= c as int <= 13
  }

  predicate IsWord(s: string) {
    s != "" && forall i :: 0 <= i < |s| ==> !IsSpace(s[i])
  }

  /** strings.Fields: the words between white space. */
  function Fields(s: string): (words: seq<string>)
    ensures forall i :: 0 <= i < |words| ==> IsWord(words[i])
  {
    if s == "" then []
    else if IsSpace(s[0]) then Fields(s[1..])
    else
      var rest := Fields(s[1..]);
      if |s| > 1 && !IsSpace(s[1]) && rest != [] then [[s[0]] + rest[0]] + rest[1..] else [[s[0]]] + rest
  }

  lemma {:induction false} FieldsOfWord(w: string)
    requires IsWord(w)
    ensures Fields(w) == [w]
  {
    if |w| > 1 {
      FieldsOfWord(w[1..]);
      assert w == [w[0]] + w[1..];
    } else {
      assert w == [w[0]];
    }
  }

  lemma {:induction false} FieldsStep(w: string, rest: string)
    requires IsWord(w)
    ensures Fields(w + " " + rest) == [w] + Fields(rest)
  {
    var s := w + " " + rest;
    if |w| == 1 {
      assert s[1..] == " " + rest && (" " + rest)[1..] == rest;
      assert w == [w[0]];
    } else {
      assert s[1..] == w[1..] + " " + rest;
      FieldsStep(w[1..], rest);
      assert w == [w[0]] + w[1..];
    }
  }

  // ---------------------------------------------------------------- decimals

  const MAX_INT64 := 0x7fff_ffff_ffff_ffff

  predicate IsDigit(c: char) {
    '0' <= c <= '9'
  }

  predicate AllDigits(s: string) {
    forall i :: 0 <= i < |s| ==> IsDigit(s[i])
  }

  /** The digits %d prints for a number that is not negative. */
  function Decimal(n: nat): (s: string)
    ensures s != "" && AllDigits(s)
  {
    var last := ['0' + (n % 10) as char];
    if n < 10 then last else Decimal(n / 10) + last
  }

  function DigitsValue(s: string): nat
    requires AllDigits(s)
  {
    if s == "" then 0 else DigitsValue(s[..|s| - 1]) * 10 + (s[|s| - 1] as int - '0' as int)
  }

  /** strconv.ParseInt(s, 10, 64): an optional sign, digits, and no overflow. */
  function ParseInt64(s: string): Option<int> {
    var signed := s != "" && (s[0] == '+' || s[0] == '-');
    var digits := if signed then s[1..] else s;
    if digits == "" || !AllDigits(digits) then None
    else
      var n: int := DigitsValue(digits);
      if signed && s[0] == '-' then (if n <= MAX_INT64 + 1 then Some(-n) else None)
      else if n <= MAX_INT64 then Some(n) else None
  }

  lemma {:induction false} DecimalValue(n: nat)
    ensures DigitsValue(Decimal(n)) == n
  {
    var s := Decimal(n);
    if n < 10 {
      assert s[..0] == "";
      assert DigitsValue(s) == DigitsValue(s[..0]) * 10 + n;
    } else {
      DecimalValue(n / 10);
      assert s[..|s| - 1] == Decimal(n / 10);
    }
  }

  function Power10(k: nat): nat {
    if k == 0 then 1 else 10 * Power10(k - 1)
  }

  /** A number below 10^k prints in at most k digits. */
  lemma {:induction false} DecimalLength(n: nat, k: nat)
    requires k >= 1 && n < Power10(k)
    ensures |Decimal(n)| <= k
  {
    if n >= 10 {
      assert k > 1;
      DecimalLength(n / 10, k - 1);
    }
  }

  /** Reading a printed number gives it back exactly when it fits 64 bits, with either sign. */
  lemma PrintedNumberReads(n: nat)
    ensures ParseInt64(Decimal(n)) == if n <= MAX_INT64 then Some(n) else None
    ensures ParseInt64("-" + Decimal(n)) == if n <= MAX_INT64 + 1 then Some(-(n as int)) else None
  {
    DecimalValue(n);
    assert ("-" + Decimal(n))[1..] == Decimal(n);
  }

  function Zeros(k: nat): string {
    if k == 0 then "" else Zeros(k - 1) + "0"
  }

  lemma {:induction false} DigitsArePrinted(s: string) returns (k: nat)
    requires s != "" && AllDigits(s)
    ensures s == Zeros(k) + Decimal(DigitsValue(s))
  {
    var init, last := s[..|s| - 1], s[|s| - 1];
    var n := DigitsValue(s);
    assert s == init + [last] && IsDigit(last);
    assert n % 10 == last as int - '0' as int && n / 10 == DigitsValue(init);
    if init == "" {
      k := 0;
      assert Decimal(n) == [last];
    } else {
      k := DigitsArePrinted(init);
      if n < 10 {
        assert init == Zeros(k) + "0" == Zeros(k + 1);
        k := k + 1;
      }
    }
  }

  lemma {:induction false} ZerosPrinted(k: nat, n: nat)
    ensures var s := Zeros(k) + Decimal(n); s != "" && AllDigits(s) && DigitsValue(s) == n
  {
    ZerosAreNothing(k);
    LeadingZeros(k, Decimal(n));
    DecimalValue(n);
  }

  lemma {:induction false} ZerosAreNothing(k: nat)
    ensures AllDigits(Zeros(k)) && DigitsValue(Zeros(k)) == 0
  {
    if k > 0 {
      ZerosAreNothing(k - 1);
      assert Zeros(k)[..|Zeros(k)| - 1] == Zeros(k - 1);
    }
  }

  lemma {:induction false} LeadingZeros(k: nat, s: string)
    requires AllDigits(s)
    ensures AllDigits(Zeros(k) + s) && DigitsValue(Zeros(k) + s) == DigitsValue(s)
  {
    ZerosAreNothing(k);
    if s == "" {
      assert Zeros(k) + s == Zeros(k);
    } else {
      LeadingZeros(k, s[..|s| - 1]);
      assert (Zeros(k) + s)[..|Zeros(k) + s| - 1] == Zeros(k) + s[..|s| - 1];
    }
  }

  /** A printed number within 64 bits, with a sign and leading zeros if any. */
  ghost predicate IsNumber(s: string, sign: string, k: nat, n: nat) {
    s == sign + (Zeros(k) + Decimal(n)) && (sign == "" || sign == "+" || sign == "-") &&
    n <= if sign == "-" then 0x8000_0000_0000_0000 else 0x7fff_ffff_ffff_ffff
  }

  lemma {:induction false} NumberReads(s: string, sign: string, k: nat, n: nat)
    requires IsNumber(s, sign, k, n)
    ensures ParseInt64(s) == Some(if sign == "-" then -(n as int) else n)
  {
    ZerosPrinted(k, n);
    var printed := Zeros(k) + Decimal(n);
    assert IsDigit(printed[0]);
    if sign == "" {
      assert s == printed;
    } else {
      assert s[1..] == printed && s[0] == sign[0];
    }
  }

  /** What is read as a number, and as which: exactly the printed numbers, and nothing else. */
  lemma {:induction false} NumbersRead(s: string)
    ensures ParseInt64(s).Some? <==> exists sign, k, n :: IsNumber(s, sign, k, n)
    ensures forall sign, k, n :: IsNumber(s, sign, k, n) ==> ParseInt64(s) == Some(if sign == "-" then -(n as int) else n)
  {
    var signed := s != "" && (s[0] == '+' || s[0] == '-');
    var digits := if signed then s[1..] else s;
    if ParseInt64(s).Some? {
      var k := DigitsArePrinted(digits);
      assert IsNumber(s, if signed then [s[0]] else "", k, DigitsValue(digits));
    }
    forall sign, k, n | IsNumber(s, sign, k, n) ensures ParseInt64(s) == Some(if sign == "-" then -(n as int) else n) {
      NumberReads(s, sign, k, n);
    }
  }
}

/** inet_aton, the independent dotted-decimal parser, and how it differs from inet_pton4. */
module InetAton {
  import opened Common
  import opened Numerals
  import opened Inet4

  const TWO_TO_THE_64: nat := 0x1_0000_0000_0000_0000

  /** The C type u_long is 32 or 64 bits wide; arithmetic on it wraps around. */
  predicate IsULong(wrap: nat) {
    wrap == TWO_TO_THE_32 || wrap == TWO_TO_THE_64
  }

  /** A field inet_aton takes: possibly empty, all digits, and at most 255 after wrapping around. */
  predicate AtonField(f: string, wrap: nat)
    requires IsULong(wrap)
  {
    AllDigits(f, 10) && Value(f, 10) % wrap <= 255
  }

  /** The octets inet_aton makes of the fields of s: at most four, one per field. */
  function Aton(s: string, wrap: nat): Option<seq<byte>>
    requires IsULong(wrap)
  {
    var fs := Fields(s);
    if |fs| <= 4 && forall f :: f in fs ==> AtonField(f, wrap) then Some(AtonValues(fs, wrap)) else None
  }

  function AtonValues(fs: seq<string>, wrap: nat): (r: seq<byte>)
    requires IsULong(wrap) && forall f :: f in fs ==> AtonField(f, wrap)
    ensures |r| == |fs|
  {
    if fs == [] then []
    else
      assert AtonField(fs[|fs| - 1], wrap);
      AtonValues(fs[..|fs| - 1], wrap) + [Value(fs[|fs| - 1], 10) % wrap]
  }

  /** The four octets stored: the last field is not spread over the remaining octets, zeros are. */
  function Stored(values: seq<byte>): seq<byte>
    requires |values| <= 4
    decreases 4 - |values|
  {
    if |values| < 4 then Stored(values + [0]) else values
  }

  /** Zeros behind the octets read. */
  lemma {:induction false} StoredAt(values: seq<byte>, k: nat)
    requires |values| <= 4 && k < 4
    ensures |Stored(values)| == 4 && Stored(values)[k] == if k < |values| then values[k] else 0
    decreases 4 - |values|
  {
    if |values| < 4 {
      StoredAt(values + [0], k);
    }
  }

  lemma {:induction false} AtonValuesAt(fs: seq<string>, wrap: nat, k: nat)
    requires IsULong(wrap) && (forall f <- fs :: AtonField(f, wrap)) && k < |fs|
    ensures AllDigits(fs[k], 10) && AtonValues(fs, wrap)[k] == Value(fs[k], 10) % wrap
    decreases |fs|
  {
    hide Value;
    assert fs[k] in fs && AtonField(fs[k], wrap);
    if k < |fs| - 1 {
      AtonValuesAt(fs[..|fs| - 1], wrap, k);
    }
  }

  /** What inet_aton stores, octet by octet: the value of each field as u_long holds it, and zeros for missing ones. */
  lemma OctetStored(s: string, wrap: nat, k: nat)
    requires IsULong(wrap) && Aton(s, wrap).Some? && k < 4
    ensures
      var fs, stored := Fields(s), Stored(Aton(s, wrap).value);
      && 1 <= |fs| <= 4 && |stored| == 4
      && (k < |fs| ==> AllDigits(fs[k], 10) && stored[k] == Value(fs[k], 10) % wrap)
      && (k >= |fs| ==> stored[k] == 0)
  {
    hide Value, Fields;
    FieldsJoin(s);
    StoredAt(Aton(s, wrap).value, k);
    if k < |Fields(s)| {
      AtonValuesAt(Fields(s), wrap, k);
    }
  }

  /** The number whose most significant octet comes first. */
  function Number(octets: seq<byte>): nat {
    if octets == [] then 0 else Number(octets[..|octets| - 1]) * 256 + octets[|octets| - 1]
  }

  /** The octets that htonl leaves in memory for the low 32 bits of addr. */
  function NetworkOrder(addr: nat): seq<byte> {
    [addr / 0x100_0000 % 256, addr / 0x1_0000 % 256, addr / 0x100 % 256, addr % 256]
  }

  lemma NumberSnoc(octets: seq<byte>, x: byte)
    ensures Number(octets + [x]) == Number(octets) * 256 + x
  {
    assert (octets + [x])[..|octets|] == octets;
  }

  lemma NumberIsSmall(v: seq<byte>)
    requires |v| <= 4
    ensures Number(v) < if |v| == 0 then 1 else if |v| == 1 then 0x100 else if |v| == 2 then 0x1_0000
                        else if |v| == 3 then 0x100_0000 else TWO_TO_THE_32
  {
    if |v| > 0 {
      NumberIsSmall(v[..|v| - 1]);
    }
  }

  lemma NetworkOrderOf(a: byte, b: byte, c: byte, d: byte)
    ensures NetworkOrder(((a as int * 256 + b) * 256 + c) * 256 + d) == [a, b, c, d]
  {
    var ab := a as int * 256 + b;
    var abc := ab * 256 + c;
    Split256(a, b);
    Split256(ab, c);
    Split256(abc, d);
    var n := abc * 256 + d;
    HigherOctets(n);
    Small256(a);
  }

  lemma Split256(x: nat, low: byte)
    ensures (x * 256 + low) / 256 == x && (x * 256 + low) % 256 == low
  {
  }

  lemma Small256(a: byte)
    ensures a as int % 256 == a
  {
  }

  lemma HigherOctets(n: nat)
    ensures n / 0x1_0000 == n / 256 / 256 && n / 0x100_0000 == n / 256 / 256 / 256 && n / 0x100 == n / 256
  {
    TwoDivisions(n);
    TwoDivisions(n / 256);
    ThreeDivisions(n);
  }

  lemma TwoDivisions(n: nat)
    ensures n / 0x1_0000 == n / 256 / 256
  {
    var q, r := n / 256, n % 256;
    var p, t := q / 256, q % 256;
    assert n == 0x1_0000 * p + (256 * t + r);
  }

  lemma ThreeDivisions(n: nat)
    ensures n / 0x100_0000 == n / 256 / 256 / 256
  {
    TwoDivisions(n);
    var q, r := n / 0x1_0000, n % 0x1_0000;
    var p, t := q / 256, q % 256;
    assert n == 0x100_0000 * p + (0x1_0000 * t + r);
  }

  lemma NetworkOrderOfNumber(v: seq<byte>)
    requires |v| == 4
    ensures NetworkOrder(Number(v)) == v
  {
    var a, b, c := v[..1], v[..2], v[..3];
    assert Number(v) == Number(c) * 256 + v[3];
    assert Number(c) == Number(b) * 256 + v[2] by { assert c[..2] == b; }
    assert Number(b) == Number(a) * 256 + v[1] by { assert b[..1] == a; }
    assert Number(a) == v[0] by { assert a[..0] == []; }
    NetworkOrderOf(v[0], v[1], v[2], v[3]);
    assert [v[0], v[1], v[2], v[3]] == v;
  }

  /** Normalising shifts the octets read so far to the top. */
  lemma {:induction false} Normalised(v: seq<byte>)
    requires |v| <= 4
    ensures ShiftLeft(Number(v), 4 - |v|) < TWO_TO_THE_32
    ensures NetworkOrder(ShiftLeft(Number(v), 4 - |v|)) == Stored(v)
    decreases 4 - |v|
  {
    hide Number, NetworkOrder;
    if |v| < 4 {
      NumberSnoc(v, 0);
      Normalised(v + [0]);
    } else {
      NumberIsSmall(v);
      NetworkOrderOfNumber(v);
    }
  }

  /** A left shift by n octets. */
  function ShiftLeft(x: nat, n: nat): nat
    decreases n
  {
    if n == 0 then x else ShiftLeft(x * 256, n - 1)
  }

  /** Shifting an address of at most three octets makes room for another. */
  lemma ShiftIn(v: seq<byte>, x: byte, wrap: nat)
    requires IsULong(wrap) && |v| <= 3
    ensures Number(v) * 256 % wrap + x == Number(v + [x])
  {
    hide Number;
    NumberIsSmall(v);
    NumberSnoc(v, x);
    if wrap == TWO_TO_THE_32 {
    }
  }

  lemma ShiftByNothing(x: nat)
    ensures ShiftLeft(x, 0) == x
  {
  }

  lemma WrapStep(x: nat, d: nat, wrap: nat)
    requires IsULong(wrap)
    ensures (x % wrap * 10 + d) % wrap == (x * 10 + d) % wrap
  {
    var q := x / wrap;
    WholeTurns(q * 10, x % wrap * 10 + d, wrap);
    if wrap == TWO_TO_THE_32 {
      assert x * 10 + d == q * 10 * TWO_TO_THE_32 + (x % TWO_TO_THE_32 * 10 + d);
    } else {
      assert x * 10 + d == q * 10 * TWO_TO_THE_64 + (x % TWO_TO_THE_64 * 10 + d);
    }
  }

  lemma WholeTurns(k: nat, y: nat, wrap: nat)
    requires IsULong(wrap)
    ensures (k * wrap + y) % wrap == y % wrap
  {
    var q, r := y / wrap, y % wrap;
    if wrap == TWO_TO_THE_32 {
      Remainder32(k + q, r);
    } else {
      Remainder64(k + q, r);
    }
  }

  lemma Remainder32(q: nat, r: nat)
    requires r < TWO_TO_THE_32
    ensures (q * TWO_TO_THE_32 + r) % TWO_TO_THE_32 == r
  {
  }

  lemma Remainder64(q: nat, r: nat)
    requires r < TWO_TO_THE_64
    ensures (q * TWO_TO_THE_64 + r) % TWO_TO_THE_64 == r
  {
  }

  lemma AtonSnoc(fs: seq<string>, f: string, wrap: nat)
    requires IsULong(wrap) && AtonField(f, wrap) && forall g :: g in fs ==> AtonField(g, wrap)
    ensures forall g :: g in fs + [f] ==> AtonField(g, wrap)
    ensures AtonValues(fs + [f], wrap) == AtonValues(fs, wrap) + [Value(f, 10) % wrap]
  {
    hide Value;
    assert (fs + [f])[..|fs|] == fs;
  }

  /** Once a field cannot be taken, or a fourth dot is met, the whole string is refused. */
  lemma Refused(s: string, done: seq<string>, rest: string, wrap: nat)
    requires IsULong(wrap) && Fields(s) == done + Fields(rest)
    requires !AtonField(rest[..FirstDot(rest)], wrap) || (|done| >= 3 && FirstDot(rest) < |rest|)
    ensures Aton(s, wrap) == None
  {
    hide Value, FirstDot, Fields;
    FieldsCut(rest);
    assert Fields(rest)[0] == rest[..FirstDot(rest)];
    assert Fields(s)[|done|] in Fields(s);
  }

  lemma Accepted(s: string, done: seq<string>, wrap: nat)
    requires IsULong(wrap) && Fields(s) == done && |done| <= 4 && forall f :: f in done ==> AtonField(f, wrap)
    ensures Aton(s, wrap) == Some(AtonValues(done, wrap))
  {
  }

  lemma FirstDotIs(s: string, j: nat)
    requires j <= |s| && AllDigits(s[..j], 10)
    ensures j <= FirstDot(s)
    ensures j == |s| || s[j] == '.' ==> FirstDot(s) == j
    ensures j < |s| && s[j] != '.' && !IsDigit(s[j], 10) ==> !AllDigits(s[..FirstDot(s)], 10)
  {
    hide FirstDot;
    var d := FirstDot(s);
    assert forall i :: 0 <= i < j ==> s[i] == s[..j][i] && IsDigit(s[i], 10);
    if j < d {
      assert s[..d][j] == s[j];
    }
  }

  /** The scan has read the fields `done`, giving these octets, and j digits of the next one, with which `rest`
      starts. */
  ghost predicate Scanned(s: string, wrap: nat, done: seq<string>, values: seq<byte>, addr: nat, rest: string, j: nat,
                          acc: nat)
    requires IsULong(wrap)
  {
    && |done| <= 3 && (forall f :: f in done ==> AtonField(f, wrap)) && values == AtonValues(done, wrap)
    && addr == Number(values) && Fields(s) == done + Fields(rest)
    && j <= |rest| && AllDigits(rest[..j], 10) && acc == Value(rest[..j], 10) % wrap
  }

  lemma ScanStarts(s: string, wrap: nat)
    requires IsULong(wrap)
    ensures Scanned(s, wrap, [], [], 0, s, 0, 0)
  {
    hide Value, Fields, Number, AtonValues;
    EmptyFields(wrap);
    assert s[..0] == "" && [] + Fields(s) == Fields(s);
  }

  lemma ScanDigit(s: string, wrap: nat, done: seq<string>, values: seq<byte>, addr: nat, rest: string, j: nat, acc: nat)
    requires IsULong(wrap) && Scanned(s, wrap, done, values, addr, rest, j, acc) && j < |rest| && IsDigit(rest[j], 10)
    ensures Scanned(s, wrap, done, values, addr, rest, j + 1, (acc * 10 + DigitOf(rest[j])) % wrap)
  {
    hide Value, Fields, Number, AtonValues, AtonField;
    assert rest[..j + 1] == rest[..j] + [rest[j]];
    ValueSnoc(rest[..j], rest[j], 10);
    WrapStep(Value(rest[..j], 10), DigitOf(rest[j]), wrap);
  }

  /** A dot, or the end, behind a field that is taken. */
  lemma ScanField(s: string, wrap: nat, done: seq<string>, values: seq<byte>, addr: nat, rest: string, j: nat, acc: nat)
    requires IsULong(wrap) && Scanned(s, wrap, done, values, addr, rest, j, acc) && acc <= 255
    requires j < |rest| ==> rest[j] == '.'
    ensures j < |rest| && |done| < 3 ==>
              Scanned(s, wrap, done + [rest[..j]], values + [acc], addr * 256 % wrap + acc, rest[j + 1..], 0, 0)
    ensures j == |rest| ==>
              Aton(s, wrap) == Some(values + [acc]) && addr * 256 % wrap + acc == Number(values + [acc])
    ensures |values| == |done|
  {
    hide Value, Fields, FirstDot, Number, AtonValues, Aton;
    var f := rest[..j];
    FirstDotIs(rest, j);
    FieldsCut(rest);
    assert AtonField(f, wrap);
    AtonSnoc(done, f, wrap);
    ShiftIn(values, acc, wrap);
    EmptyFields(wrap);
    if j < |rest| {
      assert rest[j + 1..][..0] == "";
      assert done + ([f] + Fields(rest[j + 1..])) == done + [f] + Fields(rest[j + 1..]);
    } else {
      assert f == rest;
      Accepted(s, done + [f], wrap);
    }
  }

  /** A field that is not taken, a character that is no digit and no dot, or a fourth dot. */
  lemma ScanRefused(s: string, wrap: nat, done: seq<string>, values: seq<byte>, addr: nat, rest: string, j: nat,
                    acc: nat)
    requires IsULong(wrap) && Scanned(s, wrap, done, values, addr, rest, j, acc)
    requires j < |rest| ==> !IsDigit(rest[j], 10)
    requires (j < |rest| && (rest[j] != '.' || |done| == 3)) || acc > 255
    ensures Aton(s, wrap) == None
  {
    hide Value, Fields, FirstDot, Number, AtonValues, Aton;
    FirstDotIs(rest, j);
    Refused(s, done, rest, wrap);
  }

  /** inet_aton: one pass that takes the terminating NUL as the end of the last field. */
  method InetAton(s: string, wrap: nat) returns (ok: bool, stored: seq<byte>)
    requires IsULong(wrap)
    ensures ok == Aton(s, wrap).Some?
    ensures ok ==> stored == Stored(Aton(s, wrap).value)
  {
    hide Number, NetworkOrder, Stored, ShiftLeft, Aton, Scanned, AtonValues, Fields;
    var dots: nat, acc: nat, addr: nat, i: nat := 0, 0, 0, 0;
    ghost var done: seq<string>, rest, j := [], s, 0;
    ghost var values: seq<byte> := [];
    stored := [];
    ScanStarts(s, wrap);
    while true
      invariant j <= i <= |s| && rest == s[i - j..] && |done| == dots <= 3
      invariant Scanned(s, wrap, done, values, addr, rest, j, acc)
      decreases |s| - i
    {
      if i < |s| && IsDigit(s[i], 10) {
        ScanDigit(s, wrap, done, values, addr, rest, j, acc);
        acc := (acc * 10 + DigitOf(s[i])) % wrap;
        j := j + 1;
      } else {
        if i < |s| {
          if s[i] != '.' {
            ScanRefused(s, wrap, done, values, addr, rest, j, acc);
            return false, [];
          }
          dots := dots + 1;
          if dots > 3 {
            ScanRefused(s, wrap, done, values, addr, rest, j, acc);
            return false, [];
          }
        }
        if acc > 255 {
          ScanRefused(s, wrap, done, values, addr, rest, j, acc);
          return false, [];
        }
        ScanField(s, wrap, done, values, addr, rest, j, acc);
        addr := addr * 256 % wrap + acc;  // shifted by an octet: the low one is free
        values := values + [acc];
        acc := 0;
        if i == |s| {
          break;
        }
        done, rest, j := done + [rest[..j]], rest[j + 1..], 0;
      }
      i := i + 1;
    }
    Normalised(values);
    ShiftByNothing(addr);
    if dots < 3 {
      addr := ShiftLeft(addr, 3 - dots) % wrap;
    }
    return true, NetworkOrder(addr);
  }

  lemma EmptyFields(wrap: nat)
    requires IsULong(wrap)
    ensures Value("", 10) == 0 && AtonValues([], wrap) == [] && Number([]) == 0
  {
  }

  lemma {:induction false} PlainValues(fs: seq<string>, wrap: nat)
    requires IsULong(wrap) && AllPlain(fs)
    ensures forall f :: f in fs ==> AtonField(f, wrap)
    ensures AtonValues(fs, wrap) == Values(fs)
  {
    hide Value, Values, AtonValues, AtonField, AllPlain;
    PlainIsAton(fs, wrap);
    if fs == [] {
      EmptyFields(wrap);
      NothingPlain();
    } else {
      var front, last := fs[..|fs| - 1], fs[|fs| - 1];
      assert front + [last] == fs;
      PlainSnoc(front, last);
      PlainIsAton(front, wrap);
      PlainValues(front, wrap);
      ValuesSnoc(front, last);
      assert last in fs;
      AtonSnoc(front, last, wrap);
      PlainIsSmall(last, wrap);
    }
  }

  lemma PlainIsAton(fs: seq<string>, wrap: nat)
    requires IsULong(wrap) && AllPlain(fs)
    ensures forall f :: f in fs ==> AtonField(f, wrap)
  {
    hide Value;
    forall f | f in fs
      ensures AtonField(f, wrap)
    {
      assert PlainField(f);
      PlainIsSmall(f, wrap);
    }
  }

  lemma PlainIsSmall(f: string, wrap: nat)
    requires IsULong(wrap) && PlainField(f)
    ensures Value(f, 10) % wrap == Value(f, 10)
  {
    hide Value;
  }

  lemma PlainSnoc(fs: seq<string>, f: string)
    requires AllPlain(fs + [f])
    ensures AllPlain(fs) && PlainField(f)
  {
    hide PlainField;
    assert f in fs + [f] && forall g :: g in fs ==> g in fs + [f];
  }

  lemma {:induction false} ValuesSnoc(fs: seq<string>, f: string)
    requires AllPlain(fs + [f]) && AllPlain(fs) && PlainField(f)
    ensures Values(fs + [f]) == Values(fs) + [Value(f, 10)]
  {
    hide Value;
    if fs == [] {
      assert fs + [f] == [f] && [f][1..] == [];
    } else {
      assert fs[0] in fs && forall g :: g in fs[1..] ==> g in fs;
      assert (fs + [f])[1..] == fs[1..] + [f];
      assert forall g :: g in fs[1..] + [f] ==> g in fs || g == f;
      ValuesSnoc(fs[1..], f);
    }
  }

  /** The two parsers agree wherever inet_pton4 accepts, and inet_pton4 refuses a string inet_aton takes exactly
      when it has fewer than four fields, an empty field, or a field above 255 that wrapped around. */
  lemma ParsersAgree(s: string, wrap: nat)
    requires IsULong(wrap)
    ensures Quad([], s).Some? ==> Aton(s, wrap) == Quad([], s) && Stored(Quad([], s).value) == Quad([], s).value
    ensures Aton(s, wrap).Some? ==>
      (Quad([], s).None? <==>
        |Fields(s)| < 4 || exists f :: f in Fields(s) && (f == "" || Value(f, 10) >= wrap))
  {
    hide Value, Fields, Quad, Values, AtonValues;
    QuadShape([], s);
    if Quad([], s).Some? {
      PlainValues(Fields(s), wrap);
      assert [] + Values(Fields(s)) == Values(Fields(s));
    }
    if Aton(s, wrap).Some? {
      forall f | f in Fields(s)
        ensures AtonField(f, wrap) && (PlainField(f) <==> f != "" && Value(f, 10) < wrap)
      {
        WrappedSmall(Value(f, 10), wrap);
      }
    }
  }

  /** A field that wraps around, such as 4294967297 where unsigned long has 32 bits, is accepted as what is left of
      it. */
  lemma WrappedFieldAccepted(n: byte, wrap: nat)
    requires IsULong(wrap)
    ensures
      var s := Numeral(wrap + n, 10);
      Aton(s, wrap) == Some([n]) && Stored([n]) == [n, 0, 0, 0] && Quad([], s) == None
  {
    hide Value, Numeral, FirstDot, Fields, AtonValues, Quad;
    var s := Numeral(wrap + n, 10);
    ValueOfNumeral(wrap + n, 10);
    FirstDotIs(s, |s|);
    FieldsCut(s);
    assert s[..|s|] == s;
    WholeTurns(1, n, wrap);
    EmptyFields(wrap);
    AtonSnoc([], s, wrap);
    assert [] + [s] == [s] && [] + [n] == [n];
    QuadShape([], s);
    StoredOne(n);
  }

  lemma StoredOne(n: byte)
    ensures Stored([n]) == [n, 0, 0, 0]
  {
    assert [n] + [0] == [n, 0] && [n, 0] + [0] == [n, 0, 0] && [n, 0, 0] + [0] == [n, 0, 0, 0];
    assert Stored([n, 0, 0]) == Stored([n, 0, 0, 0]) == [n, 0, 0, 0];
    assert Stored([n]) == Stored([n, 0]) == Stored([n, 0, 0]);
  }

  lemma WrappedSmall(v: nat, wrap: nat)
    requires IsULong(wrap) && v % wrap <= 255
    ensures v <= 255 <==> v < wrap
  {
    if wrap == TWO_TO_THE_32 {
    }
  }
}

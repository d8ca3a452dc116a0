/** The bencoding of BEP 3: integers, byte strings, lists and dictionaries. The
    reader accepts exactly the encodings, and every encoding is read in one
    way whatever bytes follow it. */
module Bencode {
  import opened Common

  datatype Value =
    | Int(n: int)
    | Str(s: seq<Byte>)
    | List(items: seq<Value>)
    | Dict(entries: seq<Entry>)

  datatype Entry = Entry(key: seq<Byte>, value: Value)

  const MINUS: Byte := 45
  const ZERO: Byte := 48
  const COLON: Byte := 58
  const DICT: Byte := 100
  const END: Byte := 101
  const INT: Byte := 105
  const LIST: Byte := 108

  predicate IsDigit(b: Byte) {
    ZERO <= b <= ZERO + 9
  }

  // ---- decimal numbers -------------------------------------------------------

  function Digits(n: nat): (ds: seq<Byte>) {
    if n < 10 then [ZERO + n] else Digits(n / 10) + [ZERO + n % 10]
  }

  function NatOf(ds: seq<Byte>): nat
    requires forall i :: 0 <= i < |ds| ==> IsDigit(ds[i])
  {
    if ds == [] then 0
    else
      assert IsDigit(ds[|ds| - 1]);
      NatOf(ds[..|ds| - 1]) * 10 + (ds[|ds| - 1] - ZERO)
  }

  /** No sign, no leading zero. */
  predicate IsDecimal(ds: seq<Byte>) {
    && ds != []
    && (forall i :: 0 <= i < |ds| ==> IsDigit(ds[i]))
    && (|ds| > 1 ==> ds[0] != ZERO)
  }

  lemma {:induction false} DigitsAreDecimal(n: nat)
    ensures IsDecimal(Digits(n)) && NatOf(Digits(n)) == n
    ensures n > 0 ==> Digits(n)[0] != ZERO
  {
    if n >= 10 {
      DigitsAreDecimal(n / 10);
      assert Digits(n)[..|Digits(n)| - 1] == Digits(n / 10);
    } else {
      assert Digits(n)[..0] == [];
      assert NatOf([ZERO + n]) == NatOf([ZERO + n][..0]) * 10 + n;
    }
  }

  lemma {:induction false} DecimalIsDigits(ds: seq<Byte>)
    requires IsDecimal(ds)
    ensures Digits(NatOf(ds)) == ds
    ensures ds[0] != ZERO ==> NatOf(ds) > 0
  {
    var front, last := ds[..|ds| - 1], ds[|ds| - 1];
    assert ds == front + [last];
    if front == [] {
      assert NatOf(front) == 0;
    } else {
      DecimalIsDigits(front);
      assert NatOf(front) > 0;
    }
  }

  /** The length of the longest run of digits in front. */
  function DigitRun(b: seq<Byte>): (k: nat)
    ensures k <= |b|
    ensures forall i :: 0 <= i < k ==> IsDigit(b[i])
    ensures k < |b| ==> !IsDigit(b[k])
  {
    if b == [] || !IsDigit(b[0]) then 0 else 1 + DigitRun(b[1..])
  }

  function ReadNat(b: seq<Byte>): (r: Option<(nat, seq<Byte>)>)
    ensures r.Some? ==> |r.value.1| < |b|
  {
    var k := DigitRun(b);
    if k > 0 && IsDecimal(b[..k]) then Some((NatOf(b[..k]), b[k..])) else None
  }

  predicate NoDigitFirst(b: seq<Byte>) {
    b == [] || !IsDigit(b[0])
  }

  lemma {:induction false} RunEnds(ds: seq<Byte>, y: seq<Byte>)
    requires forall i :: 0 <= i < |ds| ==> IsDigit(ds[i])
    requires NoDigitFirst(y)
    ensures DigitRun(ds + y) == |ds|
  {
    if ds == [] {
      assert ds + y == y;
    } else {
      assert (ds + y)[1..] == ds[1..] + y;
      RunEnds(ds[1..], y);
    }
  }

  lemma ReadsNat(n: nat, y: seq<Byte>)
    requires NoDigitFirst(y)
    ensures ReadNat(Digits(n) + y) == Some((n, y))
  {
    DigitsAreDecimal(n);
    RunEnds(Digits(n), y);
    assert (Digits(n) + y)[..|Digits(n)|] == Digits(n);
    assert (Digits(n) + y)[|Digits(n)|..] == y;
  }

  lemma NatRead(b: seq<Byte>)
    requires ReadNat(b).Some?
    ensures b == Digits(ReadNat(b).value.0) + ReadNat(b).value.1
    ensures NoDigitFirst(ReadNat(b).value.1)
  {
    var k := DigitRun(b);
    DecimalIsDigits(b[..k]);
    assert b == b[..k] + b[k..];
  }

  function IntText(n: int): seq<Byte> {
    if n < 0 then [MINUS] + Digits(-n) else Digits(n)
  }

  /** Minus zero is not a number. */
  function ReadInt(b: seq<Byte>): (r: Option<(int, seq<Byte>)>)
    ensures r.Some? ==> |r.value.1| < |b|
  {
    if b != [] && b[0] == MINUS then Negative(ReadNat(b[1..])) else Signed(ReadNat(b), 1)
  }

  function Signed(r: Option<(nat, seq<Byte>)>, sign: int): Option<(int, seq<Byte>)> {
    if r.None? then None else Some((sign * r.value.0, r.value.1))
  }

  function Negative(r: Option<(nat, seq<Byte>)>): Option<(int, seq<Byte>)> {
    if r.Some? && r.value.0 == 0 then None else Signed(r, -1)
  }

  lemma ReadsInt(n: int, y: seq<Byte>)
    requires NoDigitFirst(y)
    ensures ReadInt(IntText(n) + y) == Some((n, y))
  {
    if n < 0 {
      ReadsNat(-n, y);
      Assoc([MINUS], Digits(-n), y);
      assert ([MINUS] + (Digits(-n) + y))[1..] == Digits(-n) + y;
    } else {
      var b := Digits(n) + y;
      ReadsNat(n, y);
      DigitsAreDecimal(n);
      assert b[0] == Digits(n)[0] && IsDigit(b[0]);
      assert b[0] != MINUS;
    }
  }

  lemma IntRead(b: seq<Byte>)
    requires ReadInt(b).Some?
    ensures b == IntText(ReadInt(b).value.0) + ReadInt(b).value.1
  {
    if b != [] && b[0] == MINUS {
      NatRead(b[1..]);
      assert b == [MINUS] + b[1..];
    } else {
      NatRead(b);
    }
  }

  // ---- encoding --------------------------------------------------------------

  function EncStr(s: seq<Byte>): seq<Byte> {
    Digits(|s|) + ([COLON] + s)
  }

  function Enc(v: Value): (b: seq<Byte>)
    decreases v, 0
  {
    match v
    case Int(n) => [INT] + (IntText(n) + [END])
    case Str(s) => EncStr(s)
    case List(items) => [LIST] + (EncItems(items) + [END])
    case Dict(entries) => [DICT] + (EncEntries(entries) + [END])
  }

  function EncItems(items: seq<Value>): seq<Byte>
    decreases items, 1
  {
    if items == [] then [] else Enc(items[0]) + EncItems(items[1..])
  }

  function EncEntries(entries: seq<Entry>): seq<Byte>
    decreases entries, 1
  {
    if entries == [] then []
    else EncStr(entries[0].key) + (Enc(entries[0].value) + EncEntries(entries[1..]))
  }

  // ---- decoding --------------------------------------------------------------

  function ReadStr(b: seq<Byte>): (r: Option<(seq<Byte>, seq<Byte>)>)
    ensures r.Some? ==> |r.value.1| < |b|
  {
    match ReadNat(b)
    case None => None
    case Some((n, rest)) =>
      if rest != [] && rest[0] == COLON && n <= |rest| - 1
      then Some((rest[1..1 + n], rest[1 + n..]))
      else None
  }

  /** Reads the first value of the input; what follows it is returned. */
  function Read(b: seq<Byte>): (r: Option<(Value, seq<Byte>)>)
    ensures r.Some? ==> |r.value.1| < |b|
    decreases |b|, 0
  {
    if b == [] then None
    else if b[0] == INT then
      match ReadInt(b[1..])
      case Some((n, rest)) => if rest != [] && rest[0] == END then Some((Int(n), rest[1..])) else None
      case None => None
    else if b[0] == LIST then
      match ReadItems(b[1..])
      case Some((items, rest)) => Some((List(items), rest))
      case None => None
    else if b[0] == DICT then
      match ReadEntries(b[1..])
      case Some((entries, rest)) => Some((Dict(entries), rest))
      case None => None
    else
      match ReadStr(b)
      case Some((s, rest)) => Some((Str(s), rest))
      case None => None
  }

  function ReadItems(b: seq<Byte>): (r: Option<(seq<Value>, seq<Byte>)>)
    ensures r.Some? ==> |r.value.1| < |b|
    decreases |b|, 1
  {
    if b == [] then None
    else if b[0] == END then Some(([], b[1..]))
    else
      match Read(b)
      case None => None
      case Some((v, rest)) =>
        match ReadItems(rest)
        case None => None
        case Some((items, rest')) => Some(([v] + items, rest'))
  }

  function ReadEntries(b: seq<Byte>): (r: Option<(seq<Entry>, seq<Byte>)>)
    ensures r.Some? ==> |r.value.1| < |b|
    decreases |b|, 1
  {
    if b == [] then None
    else if b[0] == END then Some(([], b[1..]))
    else
      match ReadStr(b)
      case None => None
      case Some((key, rest)) =>
        match Read(rest)
        case None => None
        case Some((v, rest')) =>
          match ReadEntries(rest')
          case None => None
          case Some((entries, rest'')) => Some(([Entry(key, v)] + entries, rest''))
  }

  // ---- the reader accepts every encoding, and nothing else --------------------

  lemma ReadsStr(s: seq<Byte>, y: seq<Byte>)
    ensures ReadStr(EncStr(s) + y) == Some((s, y))
    ensures EncStr(s) != [] && IsDigit(EncStr(s)[0])
  {
    var tail := ([COLON] + s) + y;
    Assoc(Digits(|s|), [COLON] + s, y);
    ReadsNat(|s|, tail);
    DigitsAreDecimal(|s|);
    assert tail[1..1 + |s|] == s && tail[1 + |s|..] == y;
  }

  lemma StrRead(b: seq<Byte>)
    requires ReadStr(b).Some?
    ensures b == EncStr(ReadStr(b).value.0) + ReadStr(b).value.1
  {
    NatRead(b);
    var (n, rest) := ReadNat(b).value;
    var s := rest[1..1 + n];
    assert rest == ([COLON] + s) + rest[1 + n..];
    Assoc(Digits(n), [COLON] + s, rest[1 + n..]);
  }

  lemma FirstByte(v: Value)
    ensures Enc(v) != [] && Enc(v)[0] != END
  {
    if v.Str? {
      DigitsAreDecimal(|v.s|);
    }
  }

  lemma ReadsIntBack(n: int, y: seq<Byte>)
    ensures Read(Enc(Int(n)) + y) == Some((Int(n), y))
  {
    ReadsInt(n, [END] + y);
    AfterFirst(INT, IntText(n), y);
    assert ([END] + y)[1..] == y;
  }

  /** Behind the marker byte comes the body, then the end marker. */
  lemma AfterFirst(marker: Byte, body: seq<Byte>, y: seq<Byte>)
    ensures var b := ([marker] + (body + [END])) + y;
      b[0] == marker && b[1..] == body + ([END] + y)
  {
    Assoc([marker], body + [END], y);
    Assoc(body, [END], y);
    assert ([marker] + ((body + [END]) + y))[1..] == (body + [END]) + y;
  }

  /** An encoding is read back whatever follows it: no encoding is a proper
      prefix of another. */
  lemma {:induction false} ReadsBack(v: Value, y: seq<Byte>)
    ensures Read(Enc(v) + y) == Some((v, y))
    decreases v, 0
  {
    match v
    case Int(n) => ReadsIntBack(n, y);
    case Str(s) =>
      ReadsStr(s, y);
      assert (EncStr(s) + y)[0] == EncStr(s)[0];
    case List(items) =>
      ReadsItemsBack(items, y);
      AfterFirst(LIST, EncItems(items), y);
    case Dict(entries) =>
      ReadsEntriesBack(entries, y);
      AfterFirst(DICT, EncEntries(entries), y);
  }

  lemma {:induction false} ReadsItemsBack(items: seq<Value>, y: seq<Byte>)
    ensures ReadItems(EncItems(items) + ([END] + y)) == Some((items, y))
    decreases items, 1
  {
    var tail := [END] + y;
    if items == [] {
      assert EncItems(items) + tail == tail && tail[1..] == y;
    } else {
      var rest := EncItems(items[1..]) + tail;
      Assoc(Enc(items[0]), EncItems(items[1..]), tail);
      FirstByte(items[0]);
      ReadsBack(items[0], rest);
      ReadsItemsBack(items[1..], y);
      assert (Enc(items[0]) + rest)[0] == Enc(items[0])[0];
      assert [items[0]] + items[1..] == items;
    }
  }

  lemma {:induction false} ReadsEntriesBack(entries: seq<Entry>, y: seq<Byte>)
    ensures ReadEntries(EncEntries(entries) + ([END] + y)) == Some((entries, y))
    decreases entries, 1
  {
    var tail := [END] + y;
    if entries == [] {
      assert EncEntries(entries) + tail == tail && tail[1..] == y;
    } else {
      var e := entries[0];
      var rest := EncEntries(entries[1..]) + tail;
      Assoc(EncStr(e.key), Enc(e.value) + EncEntries(entries[1..]), tail);
      Assoc(Enc(e.value), EncEntries(entries[1..]), tail);
      ReadsStr(e.key, Enc(e.value) + rest);
      ReadsBack(e.value, rest);
      ReadsEntriesBack(entries[1..], y);
      assert (EncStr(e.key) + (Enc(e.value) + rest))[0] == EncStr(e.key)[0];
      assert [Entry(e.key, e.value)] + entries[1..] == entries;
    }
  }

  /** `AfterFirst`, the other way. */
  lemma Rejoin(b: seq<Byte>, body: seq<Byte>, y: seq<Byte>)
    requires b != [] && b[1..] == body + ([END] + y)
    ensures b == ([b[0]] + (body + [END])) + y
  {
    assert b == [b[0]] + b[1..];
    Assoc([b[0]], body + [END], y);
    Assoc(body, [END], y);
  }

  /** Whatever the reader accepts is an encoding of what it returns. */
  lemma {:induction false} ReadExactly(b: seq<Byte>)
    requires Read(b).Some?
    ensures b == Enc(Read(b).value.0) + Read(b).value.1
    decreases |b|, 0
  {
    var (v, y) := Read(b).value;
    if b[0] == INT {
      IntRead(b[1..]);
      assert ReadInt(b[1..]).value.1 == [END] + y;
      Rejoin(b, IntText(v.n), y);
    } else if b[0] == LIST {
      ReadItemsExactly(b[1..]);
      Rejoin(b, EncItems(v.items), y);
    } else if b[0] == DICT {
      ReadEntriesExactly(b[1..]);
      Rejoin(b, EncEntries(v.entries), y);
    } else {
      StrRead(b);
    }
  }

  lemma {:induction false} ReadItemsExactly(b: seq<Byte>)
    requires ReadItems(b).Some?
    ensures b == EncItems(ReadItems(b).value.0) + ([END] + ReadItems(b).value.1)
    decreases |b|, 1
  {
    var (items, y) := ReadItems(b).value;
    if b[0] == END {
      assert b == [END] + y;
    } else {
      var (v, rest) := Read(b).value;
      ReadExactly(b);
      ReadItemsExactly(rest);
      assert items[1..] == ReadItems(rest).value.0;
      Assoc(Enc(v), EncItems(items[1..]), [END] + y);
    }
  }

  lemma {:induction false} ReadEntriesExactly(b: seq<Byte>)
    requires ReadEntries(b).Some?
    ensures b == EncEntries(ReadEntries(b).value.0) + ([END] + ReadEntries(b).value.1)
    decreases |b|, 1
  {
    var (entries, y) := ReadEntries(b).value;
    if b[0] == END {
      assert b == [END] + y;
    } else {
      var (key, rest) := ReadStr(b).value;
      var (v, rest') := Read(rest).value;
      StrRead(b);
      ReadExactly(rest);
      ReadEntriesExactly(rest');
      assert entries[1..] == ReadEntries(rest').value.0;
      Assoc(Enc(v), EncEntries(entries[1..]), [END] + y);
      Assoc(EncStr(key), Enc(v) + EncEntries(entries[1..]), [END] + y);
    }
  }

  /** Reading characterised: the one value in front, and the rest. */
  lemma ReadIff(b: seq<Byte>, v: Value, y: seq<Byte>)
    ensures Read(b) == Some((v, y)) <==> b == Enc(v) + y
  {
    if Read(b) == Some((v, y)) {
      ReadExactly(b);
    }
    if b == Enc(v) + y {
      ReadsBack(v, y);
    }
  }

  /** Unique readability. */
  lemma EncodingsArePrefixFree(v: Value, x: seq<Byte>, w: Value, y: seq<Byte>)
    requires Enc(v) + x == Enc(w) + y
    ensures v == w && x == y
  {
    ReadsBack(v, x);
    ReadsBack(w, y);
  }

  // ---- anchors ------------------------------------------------------------------

  function Pow10(n: nat): nat {
    if n == 0 then 1 else 10 * Pow10(n - 1)
  }

  /** The first digit weighs most. */
  lemma {:induction false} FirstDigitWeighsMost(ds: seq<Byte>)
    requires ds != [] && forall i :: 0 <= i < |ds| ==> IsDigit(ds[i])
    ensures NatOf(ds) == (ds[0] - 48) * Pow10(|ds| - 1) + NatOf(ds[1..])
  {
    if |ds| > 1 {
      var front := ds[..|ds| - 1];
      FirstDigitWeighsMost(front);
      assert ds[1..][..|ds| - 2] == front[1..];
      assert NatOf(ds[1..]) == NatOf(front[1..]) * 10 + (ds[|ds| - 1] - 48);
      Weight(ds[0] - 48, Pow10(|ds| - 2), NatOf(front[1..]));
    } else {
      assert ds[..0] == [];
    }
  }

  lemma Weight(d: int, p: int, r: int)
    ensures (d * p + r) * 10 == d * (10 * p) + r * 10
  {
  }

  function Bytes(text: string): seq<Byte>
    requires forall i :: 0 <= i < |text| ==> text[i] as int < 256
  {
    seq(|text|, i requires 0 <= i < |text| => text[i] as int)
  }

  lemma SmallNumbers()
    ensures Digits(3) == [51] && Digits(4) == [52] && Digits(42) == [52, 50]
  {
    assert Digits(42) == Digits(4) + [50];
  }

  lemma BytesJoin(a: string, b: string)
    requires forall i :: 0 <= i < |a| ==> a[i] as int < 256
    requires forall i :: 0 <= i < |b| ==> b[i] as int < 256
    ensures Bytes(a + b) == Bytes(a) + Bytes(b)
  {
  }

  lemma StringExamples()
    ensures EncStr(Bytes("spam")) == Bytes("4:spam") && EncStr(Bytes("eggs")) == Bytes("4:eggs")
    ensures EncStr(Bytes("cow")) == Bytes("3:cow") && EncStr(Bytes("moo")) == Bytes("3:moo")
  {
    SmallNumbers();
  }

  lemma {:induction false} ItemsJoin(a: seq<Value>, b: seq<Value>)
    ensures EncItems(a + b) == EncItems(a) + EncItems(b)
  {
    if a == [] {
      assert a + b == b;
    } else {
      assert (a + b)[1..] == a[1..] + b;
      ItemsJoin(a[1..], b);
      Assoc(Enc(a[0]), EncItems(a[1..]), EncItems(b));
    }
  }

  lemma {:induction false} EntriesJoin(a: seq<Entry>, b: seq<Entry>)
    ensures EncEntries(a + b) == EncEntries(a) + EncEntries(b)
  {
    if a == [] {
      assert a + b == b;
    } else {
      assert (a + b)[1..] == a[1..] + b;
      EntriesJoin(a[1..], b);
      Assoc(Enc(a[0].value), EncEntries(a[1..]), EncEntries(b));
      Assoc(EncStr(a[0].key), Enc(a[0].value) + EncEntries(a[1..]), EncEntries(b));
    }
  }

  /** The specification's own spellings of each kind of value. */
  lemma SpecificationExamples()
    ensures Enc(Str(Bytes("spam"))) == Bytes("4:spam")
    ensures Enc(Int(3)) == Bytes("i3e") && Enc(Int(-3)) == Bytes("i-3e")
    ensures Enc(List([Str(Bytes("spam"))])) == Bytes("l4:spame")
    ensures Enc(Dict([Entry(Bytes("cow"), Str(Bytes("moo")))])) == Bytes("d3:cow3:mooe")
  {
    SmallNumbers();
    ListExample();
    DictExample();
  }

  lemma ListExample()
    ensures Enc(List([Str(Bytes("spam"))])) == Bytes("l4:spame")
  {
    StringExamples();
    var a := Str(Bytes("spam"));
    assert EncItems([a]) == Enc(a) + [];
    BytesJoin("l", "4:spam");
    BytesJoin("l4:spam", "e");
  }

  lemma DictExample()
    ensures Enc(Dict([Entry(Bytes("cow"), Str(Bytes("moo")))])) == Bytes("d3:cow3:mooe")
  {
    StringExamples();
    var a := Entry(Bytes("cow"), Str(Bytes("moo")));
    assert EncEntries([a]) == EncStr(a.key) + (Enc(a.value) + []);
    BytesJoin("3:cow", "3:moo");
    BytesJoin("d", "3:cow3:moo");
    BytesJoin("d3:cow3:moo", "e");
  }
}

/** Client data inside resume data: an opaque blob becomes the value of one more
    key of a sorted dictionary, byte for byte, and is read back byte for byte. */
module ResumeData {
  import opened Common
  import opened Bencode

  datatype Result<+T> = Ok(value: T) | Err(error: Error)
  datatype Error = MalformedBlob | InvalidBencoding | ReadFailed | ClientError

  /** "rbt-data" */
  const RBT_DATA_KEY: seq<Byte> := [114, 98, 116, 45, 100, 97, 116, 97]

  /** A value of an entry under construction. */
  datatype Node = Plain(value: Value) | Preformatted(bytes: seq<Byte>)

  datatype Field = Field(key: seq<Byte>, node: Node)

  // ---- keys are ordered by their bytes ----------------------------------------

  predicate Less(a: seq<Byte>, b: seq<Byte>) {
    b != [] && (a == [] || a[0] < b[0] || (a[0] == b[0] && Less(a[1..], b[1..])))
  }

  lemma {:induction false} LessTotal(a: seq<Byte>, b: seq<Byte>)
    ensures Less(a, b) || a == b || Less(b, a)
    ensures !(Less(a, b) && Less(b, a)) && !Less(a, a)
  {
    if a != [] {
      LessTotal(a[1..], a[1..]);
      if b != [] {
        LessTotal(a[1..], b[1..]);
        assert a == [a[0]] + a[1..] && b == [b[0]] + b[1..];
      }
    }
  }

  lemma {:induction false} LessTransitive(a: seq<Byte>, b: seq<Byte>, c: seq<Byte>)
    requires Less(a, b) && Less(b, c)
    ensures Less(a, c)
  {
    if a != [] && a[0] == b[0] && b[0] == c[0] {
      LessTransitive(a[1..], b[1..], c[1..]);
    }
  }

  /** The order of raw bytes: a proper prefix first, else the first byte that
      differs decides. */
  ghost predicate InByteOrder(a: seq<Byte>, b: seq<Byte>) {
    || (|a| < |b| && a == b[..|a|])
    || exists k: nat :: FirstDifference(a, b, k)
  }

  ghost predicate FirstDifference(a: seq<Byte>, b: seq<Byte>, k: nat) {
    k < |a| && k < |b| && a[..k] == b[..k] && a[k] < b[k]
  }

  lemma {:induction false} LessIff(a: seq<Byte>, b: seq<Byte>)
    ensures Less(a, b) <==> InByteOrder(a, b)
  {
    if a == [] || b == [] {
    } else {
      LessIff(a[1..], b[1..]);
      assert a == [a[0]] + a[1..] && b == [b[0]] + b[1..];
      if a[0] == b[0] {
        if k: nat :| FirstDifference(a, b, k) {
          assert a[1..][..k - 1] == a[..k][1..] && b[1..][..k - 1] == b[..k][1..];
          assert FirstDifference(a[1..], b[1..], k - 1);
        }
        if k: nat :| FirstDifference(a[1..], b[1..], k) {
          assert a[..k + 1] == [a[0]] + a[1..][..k] && b[..k + 1] == [b[0]] + b[1..][..k];
          assert FirstDifference(a, b, k + 1);
        }
        if |a| < |b| {
          assert b[..|a|] == [b[0]] + b[1..][..|a| - 1];
        }
      } else {
        if a[0] < b[0] {
          assert FirstDifference(a, b, 0);
        }
        assert forall k :: 0 < k <= |a| && k <= |b| ==> a[..k][0] != b[..k][0];
        if |a| < |b| {
          assert b[..|a|][0] == b[0];
        }
      }
    }
  }

  ghost predicate Sorted(fields: seq<Field>) {
    forall i, j :: 0 <= i < j < |fields| ==> Less(fields[i].key, fields[j].key)
  }

  lemma SortedAscends(fields: seq<Field>)
    ensures Sorted(fields) <==>
      forall i, j :: 0 <= i < j < |fields| ==> InByteOrder(fields[i].key, fields[j].key)
  {
    forall i, j | 0 <= i < j < |fields|
      ensures Less(fields[i].key, fields[j].key) <==> InByteOrder(fields[i].key, fields[j].key)
    {
      LessIff(fields[i].key, fields[j].key);
    }
  }

  // ---- the entry --------------------------------------------------------------

  function EncNode(n: Node): seq<Byte> {
    match n
    case Plain(v) => Enc(v)
    case Preformatted(bytes) => bytes
  }

  function EncFields(fields: seq<Field>): seq<Byte> {
    if fields == [] then []
    else EncStr(fields[0].key) + (EncNode(fields[0].node) + EncFields(fields[1..]))
  }

  /** `lt::bencode` of a dictionary entry. */
  function BencodeRoot(fields: seq<Field>): seq<Byte> {
    [DICT] + (EncFields(fields) + [END])
  }

  /** `e[key] = node` on a sorted map. */
  function SetField(fields: seq<Field>, key: seq<Byte>, node: Node): seq<Field> {
    if fields == [] || Less(key, fields[0].key) then [Field(key, node)] + fields
    else if fields[0].key == key then [Field(key, node)] + fields[1..]
    else [fields[0]] + SetField(fields[1..], key, node)
  }

  function Before(fields: seq<Field>, key: seq<Byte>): seq<Field> {
    if fields == [] then []
    else if Less(fields[0].key, key) then [fields[0]] + Before(fields[1..], key)
    else Before(fields[1..], key)
  }

  function Behind(fields: seq<Field>, key: seq<Byte>): seq<Field> {
    if fields == [] then []
    else if Less(key, fields[0].key) then [fields[0]] + Behind(fields[1..], key)
    else Behind(fields[1..], key)
  }

  predicate HasKey(fields: seq<Field>, key: seq<Byte>) {
    exists i :: 0 <= i < |fields| && fields[i].key == key
  }

  lemma {:induction false} AllBehind(fields: seq<Field>, key: seq<Byte>)
    requires Sorted(fields) && (fields == [] || Less(key, fields[0].key))
    ensures Before(fields, key) == [] && Behind(fields, key) == fields
  {
    if fields != [] {
      LessTotal(key, fields[0].key);
      if |fields| > 1 {
        LessTransitive(key, fields[0].key, fields[1].key);
      }
      AllBehind(fields[1..], key);
    }
  }

  lemma {:induction false} SetSplits(fields: seq<Field>, key: seq<Byte>, node: Node)
    requires Sorted(fields)
    ensures SetField(fields, key, node) == Before(fields, key) + ([Field(key, node)] + Behind(fields, key))
    ensures !HasKey(fields, key) ==> fields == Before(fields, key) + Behind(fields, key)
  {
    if fields == [] {
    } else if Less(key, fields[0].key) {
      AllBehind(fields, key);
    } else if fields[0].key == key {
      LessTotal(key, key);
      AllBehind(fields[1..], key);
      assert HasKey(fields, key);
    } else {
      LessTotal(key, fields[0].key);
      SetSplits(fields[1..], key, node);
      var b, h := Before(fields[1..], key), Behind(fields[1..], key);
      Assoc([fields[0]], b, [Field(key, node)] + h);
      if !HasKey(fields, key) {
        assert forall i :: 0 <= i < |fields[1..]| ==> fields[1..][i] == fields[i + 1];
        Assoc([fields[0]], b, h);
        assert fields == [fields[0]] + fields[1..];
      }
    }
  }

  lemma {:induction false} EncFieldsConcat(a: seq<Field>, b: seq<Field>)
    ensures EncFields(a + b) == EncFields(a) + EncFields(b)
  {
    if a == [] {
      assert a + b == b;
    } else {
      EncFieldsConcat(a[1..], b);
      assert (a + b)[1..] == a[1..] + b;
      Assoc(EncNode(a[0].node), EncFields(a[1..]), EncFields(b));
      Assoc(EncStr(a[0].key), EncNode(a[0].node) + EncFields(a[1..]), EncFields(b));
    }
  }

  // ---- writing ----------------------------------------------------------------

  /** The plain bytes up to the key's place, the key with the blob, the rest. */
  function Spliced(plain: seq<Field>, blob: seq<Byte>): seq<Byte> {
    [DICT] + ((EncFields(Before(plain, RBT_DATA_KEY))
      + ((EncStr(RBT_DATA_KEY) + blob) + EncFields(Behind(plain, RBT_DATA_KEY)))) + [END])
  }

  ghost predicate IsOneValue(blob: seq<Byte>) {
    exists v :: blob == Enc(v)
  }

  ghost predicate StartsWithNoValue(blob: seq<Byte>) {
    forall v, y :: blob != Enc(v) + y
  }

  ghost predicate GoesOnAfterValue(blob: seq<Byte>) {
    exists v, y :: y != [] && blob == Enc(v) + y
  }

  /** `plain` is the entry libtorrent writes for the torrent. */
  method WriteResumeDataBufEx(plain: seq<Field>, extra: seq<Byte>) returns (r: Result<seq<Byte>>)
    requires Sorted(plain)
    ensures r.Ok? <==> extra == [] || IsOneValue(extra)
    ensures r.Ok? && extra == [] ==> r.value == BencodeRoot(plain)
    ensures r.Ok? && extra != [] ==> r.value == Spliced(plain, extra)
    ensures r == Err(MalformedBlob) <==> extra != [] && StartsWithNoValue(extra)
    ensures r == Err(InvalidBencoding) <==> GoesOnAfterValue(extra)
  {
    if |extra| == 0 {
      FrontIff(extra);
      return Ok(BencodeRoot(plain));
    }
    BlobIff(extra);
    FrontIff(extra);
    var blob := Read(extra);
    if blob.None? {
      return Err(MalformedBlob);
    }
    if |extra| - |blob.value.1| != |extra| {
      return Err(InvalidBencoding);
    }
    var e := plain;
    e := SetField(e, RBT_DATA_KEY, Preformatted(extra));
    SplicedIs(plain, extra);
    var buf: seq<Byte> := [];
    buf := buf + BencodeRoot(e);
    return Ok(buf);
  }

  lemma FrontIff(extra: seq<Byte>)
    ensures Read(extra).None? <==> StartsWithNoValue(extra)
    ensures Read(extra).Some? && Read(extra).value.1 != [] <==> GoesOnAfterValue(extra)
  {
    if Read(extra).Some? {
      ReadExactly(extra);
      var (v, y) := Read(extra).value;
      assert extra == Enc(v) + y;
    }
    forall v, y | extra == Enc(v) + y
      ensures Read(extra) == Some((v, y))
    {
      ReadsBack(v, y);
    }
  }

  lemma BlobIff(extra: seq<Byte>)
    ensures IsOneValue(extra) <==> Read(extra).Some? && Read(extra).value.1 == []
  {
    if Read(extra).Some? && Read(extra).value.1 == [] {
      ReadExactly(extra);
      assert extra == Enc(Read(extra).value.0);
    }
    if IsOneValue(extra) {
      var v :| extra == Enc(v);
      ReadsBack(v, []);
      assert Enc(v) + [] == extra;
    }
  }

  lemma SplicedIs(plain: seq<Field>, blob: seq<Byte>)
    requires Sorted(plain)
    ensures BencodeRoot(SetField(plain, RBT_DATA_KEY, Preformatted(blob))) == Spliced(plain, blob)
  {
    var f := Field(RBT_DATA_KEY, Preformatted(blob));
    var b, h := Before(plain, RBT_DATA_KEY), Behind(plain, RBT_DATA_KEY);
    SetSplits(plain, RBT_DATA_KEY, Preformatted(blob));
    EncFieldsConcat(b, [f] + h);
    assert ([f] + h)[1..] == h;
    Assoc(EncStr(RBT_DATA_KEY), blob, EncFields(h));
  }

  /** Apart from the one key the output is the plain output, byte for byte. */
  lemma PlainApartFromKey(plain: seq<Field>)
    requires Sorted(plain) && !HasKey(plain, RBT_DATA_KEY)
    ensures BencodeRoot(plain) == [DICT]
      + ((EncFields(Before(plain, RBT_DATA_KEY)) + EncFields(Behind(plain, RBT_DATA_KEY))) + [END])
  {
    SetSplits(plain, RBT_DATA_KEY, Preformatted([]));
    EncFieldsConcat(Before(plain, RBT_DATA_KEY), Behind(plain, RBT_DATA_KEY));
  }

  // ---- the output is a well-formed dictionary -----------------------------------

  ghost predicate AllPlain(fields: seq<Field>) {
    forall i :: 0 <= i < |fields| ==> fields[i].node.Plain?
  }

  function Entries(fields: seq<Field>): (entries: seq<Entry>)
    requires AllPlain(fields)
    ensures |entries| == |fields|
    ensures forall i :: 0 <= i < |fields| ==> entries[i] == Entry(fields[i].key, fields[i].node.value)
  {
    if fields == [] then []
    else [Entry(fields[0].key, fields[0].node.value)] + Entries(fields[1..])
  }

  lemma {:induction false} EncEntriesIs(fields: seq<Field>)
    requires AllPlain(fields)
    ensures EncEntries(Entries(fields)) == EncFields(fields)
  {
    if fields != [] {
      EncEntriesIs(fields[1..]);
      assert Entries(fields)[1..] == Entries(fields[1..]);
    }
  }

  lemma {:induction false} SetPlain(fields: seq<Field>, key: seq<Byte>, v: Value)
    requires Sorted(fields) && AllPlain(fields)
    ensures var put := SetField(fields, key, Plain(v));
      && AllPlain(put)
      && EncFields(put) == EncFields(SetField(fields, key, Preformatted(Enc(v))))
      && (forall i :: 0 <= i < |put| ==> put[i] == Field(key, Plain(v)) || put[i] in fields)
      && (fields != [] ==> put[0].key == key || put[0].key == fields[0].key)
  {
    if fields == [] || Less(key, fields[0].key) {
    } else if fields[0].key == key {
    } else {
      SetPlain(fields[1..], key, v);
      assert SetField(fields, key, Plain(v))[1..] == SetField(fields[1..], key, Plain(v));
    }
  }

  lemma {:induction false} SetSorted(fields: seq<Field>, key: seq<Byte>, node: Node)
    requires Sorted(fields)
    ensures Sorted(SetField(fields, key, node))
    ensures forall k :: Less(k, key) && (forall i :: 0 <= i < |fields| ==> Less(k, fields[i].key))
              ==> forall i :: 0 <= i < |SetField(fields, key, node)| ==> Less(k, SetField(fields, key, node)[i].key)
  {
    var put := SetField(fields, key, node);
    if fields == [] {
    } else if Less(key, fields[0].key) {
      forall i | 0 <= i < |fields|
        ensures Less(key, fields[i].key)
      {
        if i > 0 {
          LessTransitive(key, fields[0].key, fields[i].key);
        }
      }
    } else if fields[0].key == key {
    } else {
      LessTotal(key, fields[0].key);
      SetSorted(fields[1..], key, node);
      assert put[1..] == SetField(fields[1..], key, node);
    }
  }

  lemma {:induction false} SetHolds(fields: seq<Field>, key: seq<Byte>, v: Value)
    requires Sorted(fields)
    ensures Field(key, Plain(v)) in SetField(fields, key, Plain(v))
    ensures forall f :: f in SetField(fields, key, Plain(v)) && f.key != key <==> f in fields && f.key != key
  {
    if fields == [] || Less(key, fields[0].key) {
    } else {
      assert fields == [fields[0]] + fields[1..];
      if fields[0].key != key {
        SetHolds(fields[1..], key, v);
      }
    }
  }

  lemma EntriesHold(fields: seq<Field>, e: Entry)
    requires AllPlain(fields)
    ensures e in Entries(fields) <==> Field(e.key, Plain(e.value)) in fields
  {
    if Field(e.key, Plain(e.value)) in fields {
      var i :| 0 <= i < |fields| && fields[i] == Field(e.key, Plain(e.value));
      assert Entries(fields)[i] == e;
    }
  }

  /** The written bytes are one dictionary with strictly ascending keys: the
      plain entries with the key set to the blob's value. */
  lemma SplicedIsDictionary(plain: seq<Field>, v: Value)
    requires Sorted(plain) && AllPlain(plain)
    ensures var put := SetField(plain, RBT_DATA_KEY, Plain(v));
      && AllPlain(put)
      && Read(Spliced(plain, Enc(v))) == Some((Dict(Entries(put)), []))
      && Entry(RBT_DATA_KEY, v) in Entries(put)
      && (forall e :: e in Entries(put) && e.key != RBT_DATA_KEY <==> e in Entries(plain) && e.key != RBT_DATA_KEY)
      && (forall i, j :: 0 <= i < j < |put| ==> InByteOrder(Entries(put)[i].key, Entries(put)[j].key))
  {
    var put := SetField(plain, RBT_DATA_KEY, Plain(v));
    SetPlain(plain, RBT_DATA_KEY, v);
    SetSorted(plain, RBT_DATA_KEY, Plain(v));
    SortedAscends(put);
    SetHolds(plain, RBT_DATA_KEY, v);
    EntriesHold(put, Entry(RBT_DATA_KEY, v));
    forall e: Entry
      ensures e in Entries(put) && e.key != RBT_DATA_KEY <==> e in Entries(plain) && e.key != RBT_DATA_KEY
    {
      EntriesHold(put, e);
      EntriesHold(plain, e);
    }
    SplicedIs(plain, Enc(v));
    EncEntriesIs(put);
    ReadsBack(Dict(Entries(put)), []);
    assert Enc(Dict(Entries(put))) + [] == Spliced(plain, Enc(v));
  }

  // ---- reading ------------------------------------------------------------------

  /** Walks the members of a dictionary and returns the raw bytes of the first
      value stored under the key. */
  function FindRaw(b: seq<Byte>, key: seq<Byte>): Option<seq<Byte>>
    decreases |b|
  {
    if b == [] || b[0] == END then None
    else
      match ReadStr(b)
      case None => None
      case Some((k, rest)) =>
        match Read(rest)
        case None => None
        case Some((v, rest')) =>
          if k == key then Some(rest[..|rest| - |rest'|]) else FindRaw(rest', key)
  }

  /** The encoding of the first value under the key. */
  function FirstOf(entries: seq<Entry>, key: seq<Byte>): Option<seq<Byte>> {
    if entries == [] then None
    else if entries[0].key == key then Some(Enc(entries[0].value))
    else FirstOf(entries[1..], key)
  }

  ghost predicate IsFirst(entries: seq<Entry>, i: nat, key: seq<Byte>) {
    i < |entries| && entries[i].key == key && forall k :: 0 <= k < i ==> entries[k].key != key
  }

  lemma {:induction false} FirstOfIs(entries: seq<Entry>, key: seq<Byte>)
    ensures FirstOf(entries, key).None? <==> forall i :: 0 <= i < |entries| ==> entries[i].key != key
    ensures forall i: nat :: IsFirst(entries, i, key) ==> FirstOf(entries, key) == Some(Enc(entries[i].value))
  {
    if entries != [] {
      FirstOfIs(entries[1..], key);
      assert forall i :: 0 < i < |entries| ==> entries[i] == entries[1..][i - 1];
      forall i: nat | 0 < i && IsFirst(entries, i, key)
        ensures FirstOf(entries, key) == Some(Enc(entries[i].value))
      {
        assert IsFirst(entries[1..], i - 1, key);
      }
    }
  }

  /** The key, as text. */
  lemma KeyIsText()
    ensures |RBT_DATA_KEY| == |"rbt-data"|
    ensures forall i :: 0 <= i < |"rbt-data"| ==> RBT_DATA_KEY[i] == "rbt-data"[i] as int
  {
  }

  /** What a file says about the client data: if it starts with a dictionary, the
      bytes of the value under the key. */
  function Extra(buf: seq<Byte>): Option<seq<Byte>> {
    match Read(buf)
    case Some((Dict(entries), _)) => FirstOf(entries, RBT_DATA_KEY)
    case _ => None
  }

  /** `accepted` says whether libtorrent itself could read the resume data. */
  method ReadResumeDataEx(buf: seq<Byte>, accepted: bool) returns (r: Result<Option<seq<Byte>>>)
    ensures r == if accepted then Ok(Extra(buf)) else Err(ReadFailed)
  {
    if !accepted {
      return Err(ReadFailed);
    }
    var out: Option<seq<Byte>> := None;
    var root := Read(buf);
    if root.Some? && root.value.0.Dict? {
      FindRawInDict(buf);
      out := FindRaw(buf[1..], RBT_DATA_KEY);
    }
    return Ok(out);
  }

  lemma {:induction false} FindRawFinds(entries: seq<Entry>, key: seq<Byte>, y: seq<Byte>)
    ensures FindRaw(EncEntries(entries) + ([END] + y), key) == FirstOf(entries, key)
  {
    var tail := [END] + y;
    if entries == [] {
      assert EncEntries(entries) + tail == tail;
    } else {
      var e := entries[0];
      var rest := EncEntries(entries[1..]) + tail;
      Assoc(EncStr(e.key), Enc(e.value) + EncEntries(entries[1..]), tail);
      Assoc(Enc(e.value), EncEntries(entries[1..]), tail);
      ReadsStr(e.key, Enc(e.value) + rest);
      ReadsBack(e.value, rest);
      FindRawFinds(entries[1..], key, y);
      assert (EncStr(e.key) + (Enc(e.value) + rest))[0] == EncStr(e.key)[0];
      assert (Enc(e.value) + rest)[..|Enc(e.value)|] == Enc(e.value);
    }
  }

  lemma FindRawInDict(buf: seq<Byte>)
    requires Read(buf).Some? && Read(buf).value.0.Dict?
    ensures FindRaw(buf[1..], RBT_DATA_KEY) == Extra(buf)
  {
    var (v, y) := Read(buf).value;
    ReadExactly(buf);
    AfterFirst(DICT, EncEntries(v.entries), y);
    FindRawFinds(v.entries, RBT_DATA_KEY, y);
  }

  lemma ExtraOfRoot(fields: seq<Field>)
    requires AllPlain(fields)
    ensures Extra(BencodeRoot(fields)) == FirstOf(Entries(fields), RBT_DATA_KEY)
  {
    var entries := Entries(fields);
    EncEntriesIs(fields);
    ReadsBack(Dict(entries), []);
    assert Enc(Dict(entries)) + [] == BencodeRoot(fields);
  }

  lemma {:induction false} FirstOfSet(fields: seq<Field>, key: seq<Byte>, v: Value)
    requires Sorted(fields) && AllPlain(fields)
    ensures AllPlain(SetField(fields, key, Plain(v)))
    ensures FirstOf(Entries(SetField(fields, key, Plain(v))), key) == Some(Enc(v))
  {
    SetPlain(fields, key, v);
    var put := SetField(fields, key, Plain(v));
    if fields != [] && !Less(key, fields[0].key) && fields[0].key != key {
      FirstOfSet(fields[1..], key, v);
      assert Entries(put)[1..] == Entries(put[1..]);
      assert put[1..] == SetField(fields[1..], key, Plain(v));
    }
  }

  lemma {:induction false} FirstOfAbsent(fields: seq<Field>, key: seq<Byte>)
    requires AllPlain(fields)
    ensures FirstOf(Entries(fields), key) == None <==> !HasKey(fields, key)
  {
    if fields != [] {
      FirstOfAbsent(fields[1..], key);
      assert Entries(fields)[1..] == Entries(fields[1..]);
      if HasKey(fields, key) && fields[0].key != key {
        var i :| 0 <= i < |fields| && fields[i].key == key;
        assert fields[1..][i - 1].key == key;
      }
    }
  }

  /** What is written is what is read: the blob verbatim, or nothing. */
  lemma RawRoundTrip(plain: seq<Field>, blob: seq<Byte>)
    requires Sorted(plain) && AllPlain(plain)
    ensures IsOneValue(blob) ==> Extra(Spliced(plain, blob)) == Some(blob)
    ensures Extra(BencodeRoot(plain)) == None <==> !HasKey(plain, RBT_DATA_KEY)
  {
    if IsOneValue(blob) {
      var v :| blob == Enc(v);
      SplicedIs(plain, blob);
      SetPlain(plain, RBT_DATA_KEY, v);
      ExtraOfRoot(SetField(plain, RBT_DATA_KEY, Plain(v)));
      FirstOfSet(plain, RBT_DATA_KEY, v);
    }
    ExtraOfRoot(plain);
    FirstOfAbsent(plain, RBT_DATA_KEY);
  }

  // ---- typed client data ----------------------------------------------------------

  /** An implementation of the `ClientData` trait. */
  datatype Codec<!T> = Codec(toBencode: T -> seq<Byte>, fromBencode: Option<seq<Byte>> -> Result<T>)

  /** The documented law. */
  ghost predicate RoundTripLaw<T>(c: Codec<T>, x: T) {
    c.fromBencode(Some(c.toBencode(x))) == Ok(x)
  }

  method WriteWith<T>(c: Codec<T>, plain: seq<Field>, x: T) returns (r: Result<seq<Byte>>)
    requires Sorted(plain)
    ensures r.Ok? <==> c.toBencode(x) == [] || IsOneValue(c.toBencode(x))
    ensures r.Ok? ==> r.value == Written(c, plain, x)
  {
    var blob := c.toBencode(x);
    r := WriteResumeDataBufEx(plain, blob);
  }

  function Written<T>(c: Codec<T>, plain: seq<Field>, x: T): seq<Byte> {
    if c.toBencode(x) == [] then BencodeRoot(plain) else Spliced(plain, c.toBencode(x))
  }

  method ReadWith<T>(c: Codec<T>, buf: seq<Byte>, accepted: bool) returns (r: Result<T>)
    ensures r == if accepted then c.fromBencode(Extra(buf)) else Err(ReadFailed)
  {
    var extra := ReadResumeDataEx(buf, accepted);
    if extra.Err? {
      return Err(extra.error);
    }
    return c.fromBencode(extra.value);
  }

  /** The typed round trip is the identity exactly where the law says so; a
      value that writes no key comes back exactly if it is the default. */
  lemma TypedRoundTrip<T>(c: Codec<T>, plain: seq<Field>, x: T)
    requires Sorted(plain) && AllPlain(plain) && !HasKey(plain, RBT_DATA_KEY)
    requires c.toBencode(x) == [] || IsOneValue(c.toBencode(x))
    ensures c.fromBencode(Extra(Written(c, plain, x))) == Ok(x) <==>
      if c.toBencode(x) == [] then c.fromBencode(None) == Ok(x) else RoundTripLaw(c, x)
  {
    RawRoundTrip(plain, c.toBencode(x));
  }

  /** An implementation that does all that is asked of it: every value writes
      nothing or one bencode value, and obeys the law. */
  ghost predicate Lawful<T(!new)>(c: Codec<T>) {
    forall x :: RoundTripLaw(c, x) && (c.toBencode(x) == [] || IsOneValue(c.toBencode(x)))
  }

  /** The law does not cover a value that writes no key: a lawful implementation
      can lose one. */
  lemma LawIsNotEnough()
    ensures exists c: Codec<bool> :: Lawful(c) && c.toBencode(true) == [] && c.fromBencode(None) != Ok(true)
  {
    var c: Codec<bool> := Codec(
      (x: bool) => if x then [] else Enc(Str([])),
      (b: Option<seq<Byte>>) => if b == Some([]) then Ok(true) else Ok(false));
    FirstByte(Str([]));
    assert IsOneValue(Enc(Str([])));
    assert Lawful(c) && c.toBencode(true) == [] && c.fromBencode(None) != Ok(true);
  }
}

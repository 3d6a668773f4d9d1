/** The two records SubmitResult nests (fatOutputPayload inside fatJournalEntry), their canonical
    bytes, and the decoder of exactly those shapes. */
module Envelope {
  import opened Prelude
  import opened Crc32c
  import opened Jcs
  import Base64

  type Uint8 = x: nat | x < 0x100
  type Uint32 = x: nat | x < 0x1_0000_0000

  /** The integers RFC 8785 writes exactly: up to 2^53. */
  type SafeInt = x: nat | x <= 0x20_0000_0000_0000

  /** None is Go's nil slice, Some([]) the empty one. */
  datatype OutputPayload = OutputPayload(result: Option<seq<Byte>>, isTerminal: bool)

  datatype JournalEntry =
    JournalEntry(payload: Option<seq<Byte>>, seqNo: SafeInt, appChecksum: Uint32, entryType: Uint8)

  const TYPE_OUTPUT: Uint8 := 3
  const TYPE_ERROR: Uint8 := 5

  // ---- text and bytes ----

  predicate Plain(t: string) { forall i :: 0 <= i < |t| ==> t[i] < 128 as char }

  function ToBytes(t: string): seq<Byte>
    requires Plain(t)
  {
    seq(|t|, i requires 0 <= i < |t| => t[i] as int)
  }

  function FromBytes(data: seq<Byte>): string {
    seq(|data|, i requires 0 <= i < |data| => data[i] as char)
  }

  lemma TextOfBytes(t: string)
    requires Plain(t)
    ensures FromBytes(ToBytes(t)) == t
  {
  }

  lemma BytesOfText(data: seq<Byte>)
    requires Plain(FromBytes(data))
    ensures ToBytes(FromBytes(data)) == data
  {
    var t := FromBytes(data);
    forall i | 0 <= i < |data|
      ensures ToBytes(t)[i] == data[i]
    {
      assert t[i] == data[i] as char;
    }
  }

  // ---- canonical text of the two records ----

  /** The members in the order encoding/json emits the struct fields. */
  function OutputMembers(o: OutputPayload): seq<Member> {
    [Member("result", BytesJson(o.result)), Member("isTerminal", Bool(o.isTerminal))]
  }

  function EntryMembers(e: JournalEntry): seq<Member> {
    [Member("payload", BytesJson(e.payload)), Member("seqNo", Number(e.seqNo)),
     Member("appChecksum", Number(e.appChecksum)), Member("type", Number(e.entryType))]
  }

  lemma OutputText(o: OutputPayload)
    ensures Transform(OutputMembers(o)) == "{" + Suffix(OutputSorted(o), "}")
  {
    OutputKeysOrdered();
    TransformSorted(OutputMembers(o), OutputSorted(o));
  }

  lemma EntryText(e: JournalEntry)
    ensures Transform(EntryMembers(e)) == "{" + Suffix(EntrySorted(e), "}")
  {
    EntryKeysOrdered();
    TransformSorted(EntryMembers(e), EntrySorted(e));
  }

  function OutputSorted(o: OutputPayload): (ms: seq<Member>)
    ensures multiset(ms) == multiset(OutputMembers(o))
  {
    [Member("isTerminal", Bool(o.isTerminal)), Member("result", BytesJson(o.result))]
  }

  function EntrySorted(e: JournalEntry): (ms: seq<Member>)
    ensures multiset(ms) == multiset(EntryMembers(e))
  {
    [Member("appChecksum", Number(e.appChecksum)), Member("payload", BytesJson(e.payload)),
     Member("seqNo", Number(e.seqNo)), Member("type", Number(e.entryType))]
  }

  lemma OutputKeysOrdered()
    ensures Less("isTerminal", "result")
  {
  }

  lemma EntryKeysOrdered()
    ensures Less("appChecksum", "payload") && Less("payload", "seqNo") && Less("seqNo", "type")
    ensures Less("appChecksum", "seqNo") && Less("appChecksum", "type") && Less("payload", "type")
  {
  }

  // ---- decoding ----

  function ParseOutput(text: string): Option<OutputPayload> {
    var t1 :- Strip("{", text);
    var t2 :- Strip(Key("isTerminal"), t1);
    var (isTerminal, t3) :- ParseBool(t2);
    var t4 :- Strip(",", t3);
    var t5 :- Strip(Key("result"), t4);
    var (result, t6) :- ParseBytes(t5);
    if t6 == "}" then Some(OutputPayload(result, isTerminal)) else None
  }

  function ParseEntryFront(text: string): Option<(nat, Option<seq<Byte>>, string)> {
    var t1 :- Strip("{", text);
    var t2 :- Strip(Key("appChecksum"), t1);
    var (appChecksum, t3) :- ParseNumber(t2);
    var t4 :- Strip(",", t3);
    var t5 :- Strip(Key("payload"), t4);
    var (payload, t6) :- ParseBytes(t5);
    var rest :- Strip(",", t6);
    Some((appChecksum, payload, rest))
  }

  function ParseEntryBack(text: string): Option<(nat, nat)> {
    var t1 :- Strip(Key("seqNo"), text);
    var (seqNo, t2) :- ParseNumber(t1);
    var t3 :- Strip(",", t2);
    var t4 :- Strip(Key("type"), t3);
    var (entryType, t5) :- ParseNumber(t4);
    if t5 == "}" then Some((seqNo, entryType)) else None
  }

  function ParseEntry(text: string): Option<JournalEntry> { Assemble(ParseEntryFront(text)) }

  /** The entry of a front and the back that follows it, if the numbers fit their fields. */
  function Assemble(front: Option<(nat, Option<seq<Byte>>, string)>): Option<JournalEntry> {
    var (appChecksum, payload, rest) :- front;
    var (seqNo, entryType) :- ParseEntryBack(rest);
    if appChecksum < 0x1_0000_0000 && seqNo <= 0x20_0000_0000_0000 && entryType < 0x100 then
      Some(JournalEntry(payload, seqNo, appChecksum, entryType))
    else None
  }

  lemma SuffixTwo(a: Member, b: Member)
    ensures Suffix([a, b], "}")
         == Key(a.key) + (Render(a.value) + ("," + (Key(b.key) + (Render(b.value) + "}"))))
  {
    assert [a, b][1..] == [b];
  }

  lemma SuffixFour(a: Member, b: Member, c: Member, d: Member)
    ensures Suffix([a, b, c, d], "}")
         == Key(a.key) + (Render(a.value) + ("," + (Key(b.key) + (Render(b.value) + ("," + Suffix([c, d], "}"))))))
  {
    assert [a, b, c, d][1..] == [b, c, d] && [b, c, d][1..] == [c, d];
  }

  lemma MergeKey(sep: string, key: string, merged: string, r: string)
    requires sep + Key(key) == merged
    ensures sep + (Key(key) + r) == merged + r
  {
    Assoc(sep, Key(key), r);
  }

  lemma OutputKeysText(a: string, b: string)
    ensures "{" + (Key("isTerminal") + (a + ("," + (Key("result") + b))))
         == "{\"isTerminal\":" + (a + (",\"result\":" + b))
  {
    MergeKey(",", "result", ",\"result\":", b);
    MergeKey("{", "isTerminal", "{\"isTerminal\":", a + ("," + (Key("result") + b)));
  }

  lemma EntryKeysText(a: string, b: string, c: string, d: string)
    ensures "{" + (Key("appChecksum") + (a + ("," + (Key("payload") + (b + ("," + (Key("seqNo") + (c
                + ("," + (Key("type") + d))))))))))
         == "{\"appChecksum\":" + (a + (",\"payload\":" + (b + (",\"seqNo\":" + (c + (",\"type\":" + d))))))
  {
    MergeKey(",", "type", ",\"type\":", d);
    MergeKey(",", "seqNo", ",\"seqNo\":", c + (",\"type\":" + d));
    MergeKey(",", "payload", ",\"payload\":", b + (",\"seqNo\":" + (c + (",\"type\":" + d))));
    MergeKey("{", "appChecksum", "{\"appChecksum\":",
             a + (",\"payload\":" + (b + (",\"seqNo\":" + (c + (",\"type\":" + d))))));
  }

  /** The text of the inner record, spelled out. */
  lemma OutputShape(o: OutputPayload)
    ensures Transform(OutputMembers(o))
         == "{\"isTerminal\":" + ((if o.isTerminal then "true" else "false") + (",\"result\":" +
            ((if o.result == None then "null" else "\"" + Base64.Encode(o.result.value) + "\"") + "}")))
  {
    OutputText(o);
    var ms := OutputSorted(o);
    SuffixTwo(ms[0], ms[1]);
    OutputKeysText(Render(ms[0].value), Render(ms[1].value) + "}");
  }

  /** The text of the outer record, spelled out. */
  lemma EntryShape(e: JournalEntry)
    ensures Transform(EntryMembers(e))
         == "{\"appChecksum\":" + (Digits(e.appChecksum) + (",\"payload\":" +
            ((if e.payload == None then "null" else "\"" + Base64.Encode(e.payload.value) + "\"")
            + (",\"seqNo\":" + (Digits(e.seqNo) + (",\"type\":" + (Digits(e.entryType) + "}")))))))
  {
    EntryText(e);
    var ms := EntrySorted(e);
    SuffixFour(ms[0], ms[1], ms[2], ms[3]);
    SuffixTwo(ms[2], ms[3]);
    EntryKeysText(Render(ms[0].value), Render(ms[1].value), Render(ms[2].value), Render(ms[3].value) + "}");
  }

  lemma ParseOutputExact(o: OutputPayload)
    ensures ParseOutput("{" + Suffix(OutputSorted(o), "}")) == Some(o)
  {
    var ms := OutputSorted(o);
    SuffixTwo(ms[0], ms[1]);
    var r5 := Render(BytesJson(o.result)) + "}";
    var r4 := Key("result") + r5;
    var r2 := Render(Bool(o.isTerminal)) + ("," + r4);
    StripExact("{", Key("isTerminal") + r2);
    StripExact(Key("isTerminal"), r2);
    ParseBoolExact(o.isTerminal, "," + r4);
    StripExact(",", r4);
    StripExact(Key("result"), r5);
    ParseBytesExact(o.result, "}");
  }

  lemma FrontExact(appChecksum: nat, payload: Option<seq<Byte>>, rest: string)
    ensures ParseEntryFront("{" + (Key("appChecksum") + (Render(Number(appChecksum)) + ("," + (Key("payload")
                            + (Render(BytesJson(payload)) + ("," + rest)))))))
         == Some((appChecksum, payload, rest))
  {
    var r5 := Render(BytesJson(payload)) + ("," + rest);
    var r4 := Key("payload") + r5;
    var r2 := Render(Number(appChecksum)) + ("," + r4);
    StripExact("{", Key("appChecksum") + r2);
    StripExact(Key("appChecksum"), r2);
    ParseNumberExact(appChecksum, "," + r4);
    StripExact(",", r4);
    StripExact(Key("payload"), r5);
    ParseBytesExact(payload, "," + rest);
    StripExact(",", rest);
  }

  lemma BackExact(seqNo: nat, entryType: nat)
    ensures ParseEntryBack(Key("seqNo") + (Render(Number(seqNo)) + ("," + (Key("type")
                           + (Render(Number(entryType)) + "}")))))
         == Some((seqNo, entryType))
  {
    var r4 := Render(Number(entryType)) + "}";
    var r3 := Key("type") + r4;
    StripExact(Key("seqNo"), Render(Number(seqNo)) + ("," + r3));
    ParseNumberExact(seqNo, "," + r3);
    StripExact(",", r3);
    StripExact(Key("type"), r4);
    ParseNumberExact(entryType, "}");
  }

  lemma ParseEntryExact(e: JournalEntry)
    ensures ParseEntry("{" + Suffix(EntrySorted(e), "}")) == Some(e)
  {
    var ms := EntrySorted(e);
    SuffixFour(ms[0], ms[1], ms[2], ms[3]);
    SuffixTwo(ms[2], ms[3]);
    FrontExact(e.appChecksum, e.payload, Suffix([ms[2], ms[3]], "}"));
    BackExact(e.seqNo, e.entryType);
  }

  lemma ParsedOutput(text: string)
    requires ParseOutput(text).Some?
    ensures text == "{" + Suffix(OutputSorted(ParseOutput(text).value), "}")
  {
    var o := ParseOutput(text).value;
    var t2 := Strip(Key("isTerminal"), Strip("{", text).value).value;
    ParsedBool(t2);
    var t5 := Strip(Key("result"), Strip(",", ParseBool(t2).value.1).value).value;
    ParsedBytes(t5);
    var ms := OutputSorted(o);
    SuffixTwo(ms[0], ms[1]);
  }

  lemma ParsedFront(text: string)
    requires ParseEntryFront(text).Some?
    ensures var (appChecksum, payload, rest) := ParseEntryFront(text).value;
            text == "{" + (Key("appChecksum") + (Render(Number(appChecksum)) + ("," + (Key("payload")
                    + (Render(BytesJson(payload)) + ("," + rest))))))
  {
    var t2 := Strip(Key("appChecksum"), Strip("{", text).value).value;
    ParsedNumber(t2);
    ParsedBytes(Strip(Key("payload"), Strip(",", ParseNumber(t2).value.1).value).value);
  }

  lemma ParsedBack(text: string)
    requires ParseEntryBack(text).Some?
    ensures var (seqNo, entryType) := ParseEntryBack(text).value;
            text == Key("seqNo") + (Render(Number(seqNo)) + ("," + (Key("type")
                    + (Render(Number(entryType)) + "}"))))
  {
    var t1 := Strip(Key("seqNo"), text).value;
    ParsedNumber(t1);
    ParsedNumber(Strip(Key("type"), Strip(",", ParseNumber(t1).value.1).value).value);
  }

  lemma EntrySuffix(e: JournalEntry)
    ensures "{" + Suffix(EntrySorted(e), "}")
         == "{" + (Key("appChecksum") + (Render(Number(e.appChecksum)) + ("," + (Key("payload")
            + (Render(BytesJson(e.payload)) + ("," + (Key("seqNo") + (Render(Number(e.seqNo)) + ("," + (Key("type")
            + (Render(Number(e.entryType)) + "}")))))))))))
  {
    var ms := EntrySorted(e);
    SuffixFour(ms[0], ms[1], ms[2], ms[3]);
    SuffixTwo(ms[2], ms[3]);
  }

  lemma Assembled(front: Option<(nat, Option<seq<Byte>>, string)>)
    requires Assemble(front).Some?
    ensures var e := Assemble(front).value;
            && front.Some? && front.value.0 == e.appChecksum && front.value.1 == e.payload
            && front.value.2 == Key("seqNo") + (Render(Number(e.seqNo)) + ("," + (Key("type")
                                + (Render(Number(e.entryType)) + "}"))))
  {
    ParsedBack(front.value.2);
  }

  lemma ParsedEntry(text: string)
    requires ParseEntry(text).Some?
    ensures text == "{" + Suffix(EntrySorted(ParseEntry(text).value), "}")
  {
    Assembled(ParseEntryFront(text));
    ParsedFront(text);
    EntrySuffix(ParseEntry(text).value);
  }

  // ---- bytes ----

  lemma {:induction false} DigitsPlain(n: nat)
    ensures Plain(Digits(n))
  {
    if n >= 10 {
      DigitsPlain(n / 10);
    }
  }

  lemma RenderPlain(v: Json)
    ensures Plain(Render(v))
  {
    match v
    case Null =>
    case Bool(b) =>
    case Number(n) => DigitsPlain(n);
    case Bytes(data) =>
      Base64.EncodeAlphabet(data);
      forall i | 0 <= i < |Base64.Encode(data)|
        ensures Base64.Encode(data)[i] < 128 as char
      {
        assert Base64.InAlphabet(Base64.Encode(data)[i]);
      }
  }

  lemma {:induction false} SuffixPlain(ms: seq<Member>)
    requires ms != [] && forall i :: 0 <= i < |ms| ==> Plain(ms[i].key)
    ensures Plain(Suffix(ms, "}"))
  {
    RenderPlain(ms[0].value);
    if |ms| > 1 {
      SuffixPlain(ms[1..]);
    }
  }

  /** One text per record, one record per text. */
  lemma OutputTextCodec(text: string, o: OutputPayload)
    ensures Plain(Transform(OutputMembers(o)))
    ensures ParseOutput(text) == Some(o) <==> text == Transform(OutputMembers(o))
  {
    OutputText(o);
    OutputPlain(o);
    ParseOutputExact(o);
    if ParseOutput(text) == Some(o) {
      ParsedOutput(text);
    }
  }

  lemma OutputPlain(o: OutputPayload)
    ensures Plain("{" + Suffix(OutputSorted(o), "}"))
  {
    SuffixPlain(OutputSorted(o));
  }

  lemma EntryTextCodec(text: string, e: JournalEntry)
    ensures Plain(Transform(EntryMembers(e)))
    ensures ParseEntry(text) == Some(e) <==> text == Transform(EntryMembers(e))
  {
    EntryText(e);
    EntryPlain(e);
    ParseEntryExact(e);
    if ParseEntry(text) == Some(e) {
      ParsedEntry(text);
    }
  }

  lemma EntryPlain(e: JournalEntry)
    ensures Plain("{" + Suffix(EntrySorted(e), "}"))
  {
    SuffixPlain(EntrySorted(e));
  }

  /** fatJCSMarshal of the inner record. */
  function MarshalOutput(o: OutputPayload): seq<Byte> {
    OutputTextCodec("", o);
    ToBytes(Transform(OutputMembers(o)))
  }

  /** fatJCSMarshal of the outer record. */
  function MarshalEntry(e: JournalEntry): seq<Byte> {
    EntryTextCodec("", e);
    ToBytes(Transform(EntryMembers(e)))
  }

  function DecodeOutput(data: seq<Byte>): Option<OutputPayload> { ParseOutput(FromBytes(data)) }

  function DecodeEntry(data: seq<Byte>): Option<JournalEntry> { ParseEntry(FromBytes(data)) }

  lemma BytesIff(data: seq<Byte>, t: string)
    requires Plain(t)
    ensures FromBytes(data) == t <==> data == ToBytes(t)
  {
    TextOfBytes(t);
    if FromBytes(data) == t {
      BytesOfText(data);
    }
  }

  /** The inner record: its canonical bytes, and no others, decode to it. */
  lemma OutputCodec(data: seq<Byte>, o: OutputPayload)
    ensures DecodeOutput(data) == Some(o) <==> data == MarshalOutput(o)
  {
    OutputTextCodec(FromBytes(data), o);
    BytesIff(data, Transform(OutputMembers(o)));
  }

  /** The outer record: its canonical bytes, and no others, decode to it. */
  lemma EntryCodec(data: seq<Byte>, e: JournalEntry)
    ensures DecodeEntry(data) == Some(e) <==> data == MarshalEntry(e)
  {
    EntryTextCodec(FromBytes(data), e);
    BytesIff(data, Transform(EntryMembers(e)));
  }

  // ---- what SubmitResult publishes ----

  /** The bytes SubmitResult builds once and sends in every attempt. */
  function Wire(result: Option<seq<Byte>>): seq<Byte> {
    var inner := MarshalOutput(OutputPayload(result, true));
    ChecksumFits(inner);
    MarshalEntry(JournalEntry(Some(inner), 0, Checksum(inner), TYPE_OUTPUT))
  }

  /** The text of the inner record for a result. */
  function InnerText(result: Option<seq<Byte>>): string {
    "{\"isTerminal\":" + ("true" + (",\"result\":" +
    ((if result == None then "null" else "\"" + Base64.Encode(result.value) + "\"") + "}")))
  }

  function OuterText(checksum: nat, inner: seq<Byte>): string {
    "{\"appChecksum\":" + (Digits(checksum) + (",\"payload\":" + (("\"" + Base64.Encode(inner) + "\"")
    + (",\"seqNo\":" + ("0" + (",\"type\":" + ("3" + "}")))))))
  }

  lemma InnerBytes(result: Option<seq<Byte>>)
    ensures Plain(InnerText(result)) && MarshalOutput(OutputPayload(result, true)) == ToBytes(InnerText(result))
  {
    OutputTextCodec("", OutputPayload(result, true));
    OutputShape(OutputPayload(result, true));
  }

  lemma OuterBytes(checksum: Uint32, inner: seq<Byte>)
    ensures Plain(OuterText(checksum, inner))
    ensures MarshalEntry(JournalEntry(Some(inner), 0, checksum, TYPE_OUTPUT)) == ToBytes(OuterText(checksum, inner))
  {
    var e := JournalEntry(Some(inner), 0, checksum, TYPE_OUTPUT);
    EntryTextCodec("", e);
    EntryShape(e);
    DigitsLaw(0);
    DigitsLaw(3);
  }

  /** Are these bytes the code points of the text? */
  predicate Spells(data: seq<Byte>, text: string) {
    |data| == |text| && forall i :: 0 <= i < |data| ==> data[i] == text[i] as int
  }

  lemma ToBytesSpells(t: string)
    requires Plain(t)
    ensures Spells(ToBytes(t), t)
  {
  }

  /** What is published, byte by byte: the outer text around the bytes of the inner text and their checksum. */
  lemma WireText(result: Option<seq<Byte>>) returns (inner: seq<Byte>)
    ensures Spells(inner, InnerText(result))
    ensures Spells(Wire(result), OuterText(Checksum(inner), inner))
  {
    inner := MarshalOutput(OutputPayload(result, true));
    ChecksumFits(inner);
    InnerBytes(result);
    ToBytesSpells(InnerText(result));
    OuterBytes(Checksum(inner), inner);
    ToBytesSpells(OuterText(Checksum(inner), inner));
    WireIs(result, inner, JournalEntry(Some(inner), 0, Checksum(inner), TYPE_OUTPUT));
  }

  datatype Opened = Opened(entry: JournalEntry, output: OutputPayload)

  /** Reading an entry back: decode it, verify the checksum, decode the payload. */
  function Open(data: seq<Byte>): Option<Opened> {
    var entry :- DecodeEntry(data);
    var inner :- entry.payload;
    if Checksum(inner) != entry.appChecksum then None
    else
      var output :- DecodeOutput(inner);
      Some(Opened(entry, output))
  }

  /** A terminal entry is one of type Output or Error. */
  predicate IsTerminal(data: seq<Byte>) {
    var e := DecodeEntry(data);
    e.Some? && (e.value.entryType == TYPE_OUTPUT || e.value.entryType == TYPE_ERROR)
  }

  /** The terminal entries are the canonical bytes of the records of type 3 and type 5, and no others. */
  lemma TerminalExact(data: seq<Byte>)
    ensures IsTerminal(data) <==>
            exists e: JournalEntry :: data == MarshalEntry(e) && (e.entryType == 3 || e.entryType == 5)
  {
    if IsTerminal(data) {
      EntryCodec(data, DecodeEntry(data).value);
    }
    if e: JournalEntry :| data == MarshalEntry(e) && (e.entryType == 3 || e.entryType == 5) {
      EntryCodec(data, e);
    }
  }

  /** Every result, nil and empty included, comes back from the published bytes. */
  lemma WireOpens(result: Option<seq<Byte>>)
    ensures IsTerminal(Wire(result))
    ensures Open(Wire(result)).Some?
    ensures var o := Open(Wire(result)).value;
            o.output == OutputPayload(result, true) && o.entry.entryType == 3 && o.entry.seqNo == 0
  {
    var output := OutputPayload(result, true);
    var inner := MarshalOutput(output);
    ChecksumFits(inner);
    EntryCodec(Wire(result), JournalEntry(Some(inner), 0, Checksum(inner), TYPE_OUTPUT));
    OutputCodec(inner, output);
  }

  /** Different results never share their bytes. */
  lemma WireInjective(a: Option<seq<Byte>>, b: Option<seq<Byte>>)
    requires Wire(a) == Wire(b)
    ensures a == b
  {
    WireOpens(a);
    WireOpens(b);
  }

  lemma WireIs(result: Option<seq<Byte>>, inner: seq<Byte>, entry: JournalEntry)
    requires inner == MarshalOutput(OutputPayload(result, true))
    requires entry.payload == Some(inner) && entry.seqNo == 0 && entry.appChecksum == Checksum(inner)
    requires entry.entryType == TYPE_OUTPUT
    ensures Wire(result) == MarshalEntry(entry)
  {
    assert entry == JournalEntry(Some(inner), 0, Checksum(inner), TYPE_OUTPUT);
  }

  lemma OpenedParts(data: seq<Byte>, o: Opened)
    requires Open(data) == Some(o)
    ensures DecodeEntry(data) == Some(o.entry) && o.entry.payload.Some?
    ensures o.entry.appChecksum == Checksum(o.entry.payload.value)
    ensures DecodeOutput(o.entry.payload.value) == Some(o.output)
  {
  }

  lemma OpenedEncodes(data: seq<Byte>, o: Opened)
    requires Open(data) == Some(o)
    ensures data == MarshalEntry(o.entry) && o.entry.payload == Some(MarshalOutput(o.output))
    ensures o.entry.appChecksum == Checksum(MarshalOutput(o.output))
  {
    OpenedParts(data, o);
    EntryCodec(data, o.entry);
    OutputCodec(o.entry.payload.value, o.output);
  }

  /** Bytes that open to a result of the shape SubmitResult writes are the bytes it writes. */
  lemma OpenedIsWire(data: seq<Byte>, o: Opened)
    requires Open(data) == Some(o) && o.output.isTerminal && o.entry.entryType == TYPE_OUTPUT && o.entry.seqNo == 0
    ensures data == Wire(o.output.result)
  {
    OpenedEncodes(data, o);
    assert o.output == OutputPayload(o.output.result, true);
    WireIs(o.output.result, MarshalOutput(o.output), o.entry);
  }

  /** An entry whose payload was changed within any 32 bits, its checksum kept, does not open. */
  lemma CorruptPayloadRejected(entry: JournalEntry, corrupt: seq<Byte>, k: nat)
    requires entry.payload.Some? && entry.appChecksum == Checksum(entry.payload.value)
    requires corrupt != entry.payload.value && AgreeOutside(Bits(corrupt), Bits(entry.payload.value), k)
    ensures Open(MarshalEntry(entry.(payload := Some(corrupt)))).None?
  {
    var bad := entry.(payload := Some(corrupt));
    EntryCodec(MarshalEntry(bad), bad);
    BurstDetected(corrupt, entry.payload.value, k);
  }
}

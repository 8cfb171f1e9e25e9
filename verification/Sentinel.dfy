/** The JSON sentinel Capture uploads in place of a swap partition, and how Deploy reads a part. */
module Sentinel {
  import opened Wrappers
  import Json
  import Utf8

  datatype PartMeta = PartMeta(kind: string, uuid: string)

  const SWAP: string := "swap"

  function FieldsOf(meta: PartMeta): (fields: seq<(string, string)>)
    ensures fields != []
  {
    [("type", meta.kind)] + Json.OmitEmpty("uuid", meta.uuid)
  }

  function Marshal(meta: PartMeta): seq<Byte> {
    Utf8.Encode(Json.PrintStruct(FieldsOf(meta)))
  }

  /** json.Unmarshal into a zero partMeta, its error ignored. */
  function Unmarshal(raw: seq<Byte>): PartMeta {
    match Json.Parse(raw)
    case Some(Object(members)) => PartMeta(Json.StringField(members, "type"), Json.StringField(members, "uuid"))
    case _ => PartMeta("", "")
  }

  /** What Deploy does with a part it received whole. */
  datatype Order = MakeSwap(uuid: string) | SkipPart | RestoreImage(stream: seq<Byte>)

  predicate IsSentinel(body: seq<Byte>) {
    body != [] && body[0] == '{' as Byte
  }

  function OrderOf(body: seq<Byte>): Order {
    if !IsSentinel(body) then RestoreImage(body)
    else if Unmarshal(body).kind == SWAP then MakeSwap(Unmarshal(body).uuid)
    else SkipPart
  }

  lemma FieldAfter(meta: PartMeta, name: string)
    requires name == "type" || name == "uuid"
    ensures Json.StringField(Json.MembersOf(FieldsOf(meta)), name) == if name == "type" then meta.kind else meta.uuid
  {
    assert Json.FoldName("type") == "type" && Json.FoldName("uuid") == "uuid";
    assert Json.MembersOf([("type", meta.kind)]) == [] + [Json.Member("type", Json.Text(meta.kind))];
    Json.StringFieldAppend([], "type", meta.kind, name);
    Json.OptionalField([("type", meta.kind)], "uuid", meta.uuid, name);
  }

  /** Every sentinel is recognised and read back, an empty UUID included. */
  lemma MarshalRoundTrip(meta: PartMeta)
    ensures IsSentinel(Marshal(meta)) && Unmarshal(Marshal(meta)) == meta
  {
    Json.PrintedStructParses(FieldsOf(meta));
    FieldAfter(meta, "type");
    FieldAfter(meta, "uuid");
    var text := Json.PrintStruct(FieldsOf(meta));
    assert text[0] == '{' && Utf8.Encode(text)[0] == Utf8.EncodeChar('{')[0];
  }

  /** The upload is a tagged union: a swap sentinel orders exactly its own swap, an image that does
      not start with a brace is restored byte for byte, and no two sources share an upload. */
  lemma UploadsAreUnambiguous(uuid: string, other: string, image: seq<Byte>)
    requires !IsSentinel(image)
    ensures OrderOf(Marshal(PartMeta(SWAP, uuid))) == MakeSwap(uuid)
    ensures OrderOf(image) == RestoreImage(image)
    ensures Marshal(PartMeta(SWAP, uuid)) == Marshal(PartMeta(SWAP, other)) ==> uuid == other
    ensures Marshal(PartMeta(SWAP, uuid)) != image
  {
    MarshalRoundTrip(PartMeta(SWAP, uuid));
    MarshalRoundTrip(PartMeta(SWAP, other));
  }

  /** Malformed JSON, and JSON of another type, are skipped without an error. */
  lemma SkippedBodies()
    ensures OrderOf(['{' as Byte]) == SkipPart
    ensures OrderOf(Marshal(PartMeta("raid", ""))) == SkipPart
  {
    var raw := ['{' as Byte];
    assert Utf8.Decode(raw) == "{" by {
      assert raw[1..] == [];
    }
    assert Json.Parse(raw).None?;
    MarshalRoundTrip(PartMeta("raid", ""));
  }

  /** The sentinel as text: one member, or two when there is a UUID. */
  function Text(uuid: string): string {
    Json.PrintedPair("type", "swap",
      if uuid == "" then "}" else "," + (Json.Quoted("uuid") + (":" + (Json.Quoted(uuid) + "}"))))
  }

  /** What Capture uploads for a swap partition is this text, for every UUID that needs no escapes; and
      Deploy takes the text for the order to make that swap. */
  lemma SentinelText(uuid: string)
    requires Json.IsPlain(uuid)
    ensures Marshal(PartMeta("swap", uuid)) == Utf8.Encode(Text(uuid))
    ensures OrderOf(Utf8.Encode(Text(uuid))) == MakeSwap(uuid)
  {
    SentinelPrints(uuid);
    MarshalRoundTrip(PartMeta("swap", uuid));
  }

  lemma SentinelPrints(uuid: string)
    requires Json.IsPlain(uuid)
    ensures Json.PrintStruct(FieldsOf(PartMeta("swap", uuid))) == Text(uuid)
  {
    Json.PrintedStruct("type", "swap", "uuid", uuid);
  }
}

/** JSON values and the events a streaming reader reports for them (RFC 8259, sections 4 and 5). */
module Json {
  import opened Words

  type i64 = x: int | -0x8000_0000_0000_0000 <= x < 0x8000_0000_0000_0000

  /** Numbers come as negative integers, 64-bit naturals, or floating point. A string stands for the
      bytes the reader reports, one character a byte: the parsers limit lengths in bytes. */
  datatype Json =
    | Null
    | Bool(b: bool)
    | Negative(i: i64)
    | Natural(u: u64)
    | Double
    | Str(s: string)
    | Arr(items: seq<Json>)
    | Obj(members: seq<Member>)

  datatype Member = Member(key: string, value: Json)

  datatype Event =
    | NullEvent
    | BoolEvent(b: bool)
    | IntEvent(i: i64)
    | UintEvent(u: u64)
    | DoubleEvent
    | StringEvent(s: string)
    | StartObject
    | Key(k: string)
    | EndObject
    | StartArray
    | EndArray

  function Events(j: Json): (es: seq<Event>)
    ensures es != []
    decreases j, 1
  {
    match j
    case Null => [NullEvent]
    case Bool(b) => [BoolEvent(b)]
    case Negative(i) => [IntEvent(i)]
    case Natural(u) => [UintEvent(u)]
    case Double => [DoubleEvent]
    case Str(s) => [StringEvent(s)]
    case Arr(items) => [StartArray] + (ItemEvents(items) + [EndArray])
    case Obj(members) => [StartObject] + (MemberEvents(members) + [EndObject])
  }

  function ItemEvents(items: seq<Json>): seq<Event>
    decreases items, 0
  {
    if items == [] then [] else Events(items[0]) + ItemEvents(items[1..])
  }

  function MemberEvents(members: seq<Member>): seq<Event>
    decreases members, 0
  {
    if members == [] then []
    else [Key(members[0].key)] + (Events(members[0].value) + MemberEvents(members[1..]))
  }

  /** Integers are stored as unsigned words, whatever their sign. */
  function AsWord(i: i64): u64 {
    Wrap64(i)
  }

  /** A negative number is stored as its two's complement. */
  lemma AsWordIsComplement(i: i64)
    ensures AsWord(i) == if i < 0 then 0x1_0000_0000_0000_0000 + i else i
  {
    assert i < 0 ==> (0x1_0000_0000_0000_0000 + i) % 0x1_0000_0000_0000_0000 == 0x1_0000_0000_0000_0000 + i;
  }
}

/** The tables of section 2.2.2.2 in numbers: which packet may carry which property, and its form. */
module PropertyTable {
  import opened Basics
  import opened Wire
  import opened Properties
  import Varint

  /** The identifiers that section 2.2.2.2 lists for a packet, or for a will. */
  function Listed(command: Command): set<int> {
    match command
    case Connect => {17, 21, 22, 23, 25, 33, 34, 38, 39}
    case Connack => {17, 18, 19, 21, 22, 26, 28, 31, 33, 34, 36, 37, 38, 39, 40, 41, 42}
    case Publish => {1, 2, 3, 8, 9, 11, 35, 38}
    case Will => {1, 2, 3, 8, 9, 24, 38}
    case Puback => {31, 38}
    case Pubrec => {31, 38}
    case Pubrel => {31, 38}
    case Pubcomp => {31, 38}
    case Subscribe => {11, 38}
    case Suback => {31, 38}
    case Unsubscribe => {38}
    case Unsuback => {31, 38}
    case Disconnect => {17, 28, 31, 38}
    case Auth => {21, 22, 31, 38}
  }

  /** The check agrees with the table in all cases but one: it lets a reason string pass in a will. */
  lemma CheckedAsListed(command: Command, id: int)
    ensures CheckCommand(command, id) == Success <==> id in Listed(command) || (command == Will && id == 31)
    ensures CheckCommand(command, id) != Success ==> CheckCommand(command, id) == Protocol
  {
    hide KindOf;
  }

  /** The values that section 2.2.2 calls protocol errors: flags above 1, and zeros where none is allowed. */
  predicate InBounds(p: Property) {
    match p.body
    case Int8(i8) => p.id in {23, 25, 36, 37, 40, 41, 42} ==> i8 <= 1
    case Int16(i16) => p.id in {33, 35} ==> i16 != 0
    case Int32(i32) => p.id == 39 ==> i32 != 0
    case _ => true
  }

  /** A list is accepted exactly if each property is in bounds and listed for the packet, and none but the
      user property is there twice; a will may moreover carry one reason string. */
  lemma AcceptedAsListed(command: Command, ps: seq<Property>)
    ensures CheckAll(command, ps) == Success <==>
            && (forall i :: 0 <= i < |ps| ==> InBounds(ps[i]) && (ps[i].id in Listed(command) || (command == Will && ps[i].id == 31)))
            && (forall i, j :: 0 <= i < j < |ps| && ps[i].id == ps[j].id ==> ps[i].id == 38)
  {
    hide CheckCommand, CheckAll, ValueInRange, InBounds, Listed;
    CheckAllIsAllowed(command, ps);
    forall i | 0 <= i < |ps|
      ensures CheckCommand(command, ps[i].id) == Success <==> ps[i].id in Listed(command) || (command == Will && ps[i].id == 31)
      ensures ValueInRange(ps[i]) <==> InBounds(ps[i])
    {
      CheckedAsListed(command, ps[i].id);
      Bounds(ps[i]);
    }
    assert forall i, j :: 0 <= i < j < |ps| ==> (DuplicateOf(ps[i], ps[j]) <==> ps[i].id == ps[j].id && ps[i].id != 38);
  }

  lemma Bounds(p: Property)
    ensures ValueInRange(p) <==> InBounds(p)
  {}

  /** The form in which a property goes over the wire, by its identifier. */
  lemma WrittenForm(p: Property)
    requires Readable(p)
    ensures var b := Image(p);
            |b| >= 2 && b[0] == p.id &&
            if p.id in {1, 23, 25, 36, 37, 40, 41, 42} then p.body == Int8(b[1]) && |b| == 2
            else if p.id in {19, 33, 34, 35} then p.body == Int16(b[1] as int * 0x100 + b[2]) && |b| == 3
            else if p.id in {2, 17, 24, 39} then
              p.body == Int32(b[1] as int * 0x100_0000 + b[2] as int * 0x1_0000 + b[3] as int * 0x100 + b[4]) && |b| == 5
            else if p.id == 11 then p.body.VarInt? && p.body.varint == Varint.Worth(b[1..]) && |b| <= 5
            else if p.id in {3, 8, 18, 21, 26, 28, 31} then p.body == Str(b[3..]) && b[1] as int * 0x100 + b[2] == |b| - 3
            else if p.id in {9, 22} then p.body == Bin(b[3..]) && b[1] as int * 0x100 + b[2] == |b| - 3
            else p.id == 38 && PairForm(p.body, b)
  {
    hide Varint.Encode, Varint.Worth, Uint16, Uint32, Block, ValidStrings, PairForm;
    SmallIds(p.id);
    var b := Image(p);
    assert b[1..] == BodyImage(p.body);
    KindInNumbers(p.id);
    match p.body
    case Int8(_) => assert b[1] == BodyImage(p.body)[0];
    case Int16(w) =>
      BigEndian(w, 0);
      assert b[1] == BodyImage(p.body)[0] && b[2] == BodyImage(p.body)[1];
    case Int32(w) =>
      BigEndian(0, w);
      assert forall i :: 0 <= i < 4 ==> b[1 + i] == BodyImage(p.body)[i];
    case VarInt(v) =>
      Varint.EncodedWorth(v);
      Varint.BytesIsLength(v);
    case Str(s) => BlockForm(b, s);
    case Bin(s) => BlockForm(b, s);
    case Pair(_, _) => PairFormed(p);
  }

  lemma BlockForm(b: seq<Byte>, data: Data)
    requires b != [] && b[1..] == Block(data)
    ensures |b| >= 3 && b[3..] == data && b[1] as int * 0x100 + b[2] == |b| - 3
  {
    hide Block;
    LengthFirst(data);
    assert b[1] == b[1..][0] && b[2] == b[1..][1] && b[3..] == b[1..][2..];
  }

  /** Which kind of value an identifier stands for. */
  lemma KindInNumbers(id: int)
    ensures KindOf(id) ==
            if id in {1, 23, 25, 36, 37, 40, 41, 42} then KByte
            else if id in {19, 33, 34, 35} then KInt16
            else if id in {2, 17, 24, 39} then KInt32
            else if id == 11 then KVarint
            else if id in {3, 8, 18, 21, 26, 28, 31} then KString
            else if id in {9, 22} then KBinary
            else if id == 38 then KPair
            else Unsupported
  {}

  /** A user property: name and value, each behind its length. */
  predicate PairForm(body: Body, b: seq<Byte>) {
    && body.Pair?
    && var n, v := |body.name|, |body.value|;
       |b| == 5 + n + v && b[1] as int * 0x100 + b[2] == n && b[3..3 + n] == body.name &&
       b[3 + n] as int * 0x100 + b[4 + n] == v && b[5 + n..] == body.value
  }

  lemma {:induction false} PairFormed(p: Property)
    requires p.id == 38 && p.body.Pair?
    ensures PairForm(p.body, Image(p))
  {
    hide Block, Varint.Encode, ValidStrings;
    SmallIds(p.id);
    var name: seq<Byte>, value: seq<Byte> := p.body.name, p.body.value;
    var n, b, c, d := |name|, Image(p), Block(p.body.name), Block(p.body.value);
    LengthFirst(p.body.name);
    LengthFirst(p.body.value);
    assert b == [38] + c + d;
    assert b[1] == c[0] && b[2] == c[1] && b[3..3 + n] == c[2..];
    assert b[3 + n] == d[0] && b[4 + n] == d[1] && b[5 + n..] == d[2..];
  }
}

/** The messages on the wire and in the cache, as byte sequences (libs/src/new_pokemon.c and its siblings,
    libs/src/utils.c, broker/src/serialization.c): what a producer sends, what the broker stores
    of it, what the broker sends on, and what a receiver makes of it. */
module Wire {
  import opened Protocol
  import opened Partitions

  type word = n: nat | n < 0x1_0000_0000

  datatype Coordinate = Coordinate(x: word, y: word)

  /** A message's data. A name is its bytes as sent, the closing NUL included. */
  datatype Data =
    | New(name: seq<byte>, coordinates: seq<Coordinate>, quantity: word)
    | Placed(name: seq<byte>, coordinates: seq<Coordinate>)                     // APPEARED and CATCH
    | Ask(name: seq<byte>)                                                      // GET
    | Caught(result: word)
    | Localized(name: seq<byte>, coordinates: seq<Coordinate>, count: word)

  predicate CarriedBy(d: Data, op: Operation) {
    match op
    case NEW => d.New?
    case APPEARED => d.Placed?
    case CATCH => d.Placed?
    case GET => d.Ask?
    case CAUGHT => d.Caught?
    case LOCALIZED => d.Localized?
  }

  // ---- Words ----

  /** Four bytes, the lowest first. */
  function U32(n: nat): (r: seq<byte>)
    ensures |r| == 4
  {
    [n % 256, n / 256 % 256, n / 65536 % 256, n / 16777216 % 256]
  }

  function OfU32(b: seq<byte>): word
    requires |b| == 4
  {
    b[0] as nat + 256 * b[1] as nat + 65536 * b[2] as nat + 16777216 * b[3] as nat
  }

  lemma WordKept(n: word)
    ensures OfU32(U32(n)) == n
  {
    var a, b, c := n / 256, n / 65536, n / 16777216;
    assert a / 256 == b && b / 256 == c && c < 256;
  }

  lemma BytesKept(b: seq<byte>)
    requires |b| == 4
    ensures U32(OfU32(b)) == b
  {
    var n: nat := OfU32(b);
    var a: nat := b[1] as nat + 256 * b[2] as nat + 65536 * b[3] as nat;
    var c: nat := b[2] as nat + 256 * b[3] as nat;
    assert n == b[0] as nat + 256 * a && a == b[1] as nat + 256 * c;
    assert n / 256 == a && a / 256 == c && c / 256 == b[3];
    assert n / 65536 == c && n / 16777216 == b[3];
  }

  /** The word in the four bytes from i on. */
  function WordAt(b: seq<byte>, i: nat): nat
    requires i + 4 <= |b|
  {
    b[i] as nat + 256 * b[i + 1] as nat + 65536 * b[i + 2] as nat + 16777216 * b[i + 3] as nat
  }

  /** Its bytes are its digits to the base of 256, the lowest first. */
  lemma BytesOf(b: seq<byte>, i: nat)
    requires i + 4 <= |b|
    ensures var n := WordAt(b, i);
      && n < 0x1_0000_0000 && b[i] == n % 256 && b[i + 1] == n / 256 % 256
      && b[i + 2] == n / 65536 % 256 && b[i + 3] == n / 16777216
    ensures OfU32(b[i..i + 4]) == WordAt(b, i)
  {
    var c := b[i..i + 4];
    BytesKept(c);
    assert U32(OfU32(c))[0] == c[0] && U32(OfU32(c))[1] == c[1] && U32(OfU32(c))[2] == c[2] && U32(OfU32(c))[3] == c[3];
  }

  lemma LowWord(n: nat)
    ensures U32(n) == U32(n % 0x1_0000_0000)
  {
    var r := n % 0x1_0000_0000;
    var n1, n2, n3, r1, r2, r3 := n / 256, n / 65536, n / 16777216, r / 256, r / 65536, r / 16777216;
    assert n2 == n1 / 256 && n3 == n2 / 256 && r2 == r1 / 256 && r3 == r2 / 256;
    Low24(n);
    Low16(n1);
    Low8(n2);
  }

  lemma Low24(n: nat)
    ensures n % 0x1_0000_0000 % 256 == n % 256 && n % 0x1_0000_0000 / 256 == n / 256 % 0x100_0000
  {
  }

  lemma Low16(n: nat)
    ensures n % 0x100_0000 % 256 == n % 256 && n % 0x100_0000 / 256 == n / 256 % 0x1_0000
  {
  }

  lemma Low8(n: nat)
    ensures n % 0x1_0000 % 256 == n % 256 && n % 0x1_0000 / 256 == n / 256 % 256
  {
  }

  /** Whatever is before it and after it, a number put into four bytes is read back without what
      four bytes cannot hold. */
  lemma U32At(before: seq<byte>, n: nat, after: seq<byte>)
    ensures WordAt(before + U32(n) + after, |before|) == n % 0x1_0000_0000
    ensures n < 0x1_0000_0000 ==> WordAt(before + U32(n) + after, |before|) == n
  {
    var b := before + U32(n) + after;
    assert b[|before|..|before| + 4] == U32(n);
    LowWord(n);
    WordKept(n % 0x1_0000_0000);
    hide U32;
    BytesOf(b, |before|);
  }

  // ---- What is sent and what is stored ----

  function Position(c: Coordinate): seq<byte> { U32(c.x) + U32(c.y) }

  function Positions(cs: seq<Coordinate>): seq<byte> {
    if cs == [] then [] else Position(cs[0]) + Positions(cs[1..])
  }

  /** What follows the name. */
  function Tail(d: Data): seq<byte> {
    match d
    case New(_, cs, quantity) => Positions(cs) + U32(quantity)
    case Placed(_, cs) => Positions(cs)
    case Ask(_) => []
    case Caught(result) => U32(result)
    case Localized(_, cs, count) => U32(count) + Positions(cs)
  }

  /** serialize_new, serialize_pokemon, serialize_get, serialize_caught, serialize_localized */
  function Encode(op: Operation, d: Data): seq<byte> {
    U32(op.Code()) + (if d.Caught? then [] else U32(|d.name|) + d.name) + Tail(d)
  }

  /** serialize_data: no operation code, and the name without its closing NUL. */
  function Stored(d: Data): seq<byte>
    requires !d.Caught? ==> d.name != []
  {
    (if d.Caught? then [] else U32(|d.name| - 1) + d.name[..|d.name| - 1]) + Tail(d)
  }

  /** The id the broker appends: the message's own for what is to be answered, and that of the
      message it answers otherwise. */
  function SentId(m: Message): nat {
    match m.operation
    case NEW => m.id
    case GET => m.id
    case CATCH => m.id
    case APPEARED => m.correlationalId
    case CAUGHT => m.correlationalId
    case LOCALIZED => m.correlationalId
  }

  /** The stored bytes are long enough for the name they announce. */
  predicate Readable(m: Message, stored: seq<byte>) {
    m.operation.CAUGHT? || (|stored| >= 4 && |stored| >= 4 + OfU32(stored[..4]))
  }

  /** copy_message_from_memory */
  function Rebuild(m: Message, stored: seq<byte>): seq<byte>
    requires Readable(m, stored)
  {
    var code := U32(m.operation.Code());
    if m.operation.CAUGHT? then code + stored + U32(SentId(m))
    else
      var n := OfU32(stored[..4]);
      code + U32(n + 1) + stored[4..4 + n] + [0] + stored[4 + n..] + U32(SentId(m))
  }

  // ---- What a receiver makes of it ----

  function TakeWord(b: seq<byte>): (r: Option<(word, seq<byte>)>)
    ensures r.Some? ==> |r.value.1| == |b| - 4
  {
    if |b| < 4 then None else Some((OfU32(b[..4]), b[4..]))
  }

  /** recv_name: a receive of no bytes is an error. */
  function TakeName(b: seq<byte>): Option<(seq<byte>, seq<byte>)> {
    match TakeWord(b)
    case None => None
    case Some((n, rest)) => if n == 0 || |rest| < n then None else Some((rest[..n], rest[n..]))
  }

  /** recv_coordinate */
  function TakePosition(b: seq<byte>): Option<(Coordinate, seq<byte>)> {
    match TakeWord(b)
    case None => None
    case Some((x, rest)) =>
      match TakeWord(rest)
      case None => None
      case Some((y, rest')) => Some((Coordinate(x, y), rest'))
  }

  function TakePositions(b: seq<byte>, n: nat): (r: Option<(seq<Coordinate>, seq<byte>)>)
    ensures r.Some? ==> |r.value.0| == n
  {
    if n == 0 then Some(([], b))
    else
      match TakePosition(b)
      case None => None
      case Some((c, rest)) =>
        match TakePositions(rest, n - 1)
        case None => None
        case Some((cs, rest')) => Some(([c] + cs, rest'))
  }

  /** recv_coordinates */
  function TakeCoordinates(b: seq<byte>, many: bool): Option<(seq<Coordinate>, seq<byte>)> {
    if !many then TakePositions(b, 1)
    else
      match TakeWord(b)
      case None => None
      case Some((n, rest)) => TakePositions(rest, n)
  }

  /** recv_pokemon */
  function TakePlaced(b: seq<byte>, many: bool): Option<((seq<byte>, seq<Coordinate>), seq<byte>)> {
    match TakeName(b)
    case None => None
    case Some((name, rest)) =>
      match TakeCoordinates(rest, many)
      case None => None
      case Some((cs, rest')) => Some(((name, cs), rest'))
  }

  /** recv_new, recv_pokemon, recv_get, recv_caught, recv_localized, once the operation has
      been read. */
  function Decode(op: Operation, b: seq<byte>): Option<(Data, seq<byte>)> {
    match op
    case NEW => (
      match TakePlaced(b, false)
      case None => None
      case Some(((name, cs), rest)) =>
        match TakeWord(rest)
        case None => None
        case Some((quantity, rest')) => Some((New(name, cs, quantity), rest')))
    case GET => (
      match TakeName(b)
      case None => None
      case Some((name, rest)) => Some((Ask(name), rest)))
    case CAUGHT => (
      match TakeWord(b)
      case None => None
      case Some((result, rest)) => Some((Caught(result), rest)))
    case LOCALIZED => (
      match TakePlaced(b, true)
      case None => None
      case Some(((name, cs), rest)) => Some((Localized(name, cs, |cs|), rest)))
    case APPEARED => (
      match TakePlaced(b, false)
      case None => None
      case Some(((name, cs), rest)) => Some((Placed(name, cs), rest)))
    case CATCH => (
      match TakePlaced(b, false)
      case None => None
      case Some(((name, cs), rest)) => Some((Placed(name, cs), rest)))
  }

  // ---- Receiving undoes sending ----

  /** As the producers and the receivers build it: one position, or as many as announced. */
  predicate Sound(op: Operation, d: Data) {
    && CarriedBy(d, op)
    && (!d.Caught? ==> 0 < |d.name| < 0x1_0000_0000)
    && (d.New? || d.Placed? ==> |d.coordinates| == 1)
    && (d.Localized? ==> |d.coordinates| == d.count)
  }

  lemma TakeWordBack(n: word, rest: seq<byte>)
    ensures TakeWord(U32(n) + rest) == Some((n, rest))
  {
    WordKept(n);
    assert (U32(n) + rest)[..4] == U32(n) && (U32(n) + rest)[4..] == rest;
  }

  lemma TakeNameBack(name: seq<byte>, rest: seq<byte>)
    requires 0 < |name| < 0x1_0000_0000
    ensures TakeName(U32(|name|) + name + rest) == Some((name, rest))
  {
    hide U32, TakeWord;
    TakeWordBack(|name|, name + rest);
    assert U32(|name|) + name + rest == U32(|name|) + (name + rest);
    assert (name + rest)[..|name|] == name && (name + rest)[|name|..] == rest;
  }

  lemma TakePositionBack(c: Coordinate, rest: seq<byte>)
    ensures TakePosition(Position(c) + rest) == Some((c, rest))
  {
    hide U32, TakeWord;
    TakeWordBack(c.x, U32(c.y) + rest);
    TakeWordBack(c.y, rest);
    assert Position(c) + rest == U32(c.x) + (U32(c.y) + rest);
  }

  lemma TakeOneMore(b: seq<byte>, c: Coordinate, rest: seq<byte>, cs: seq<Coordinate>, rest': seq<byte>)
    requires TakePosition(b) == Some((c, rest)) && TakePositions(rest, |cs|) == Some((cs, rest'))
    ensures TakePositions(b, |cs| + 1) == Some(([c] + cs, rest'))
  {
  }

  lemma {:induction false} TakePositionsBack(cs: seq<Coordinate>, rest: seq<byte>)
    ensures TakePositions(Positions(cs) + rest, |cs|) == Some((cs, rest))
  {
    if cs == [] {
      assert Positions(cs) + rest == rest;
    } else {
      hide Position, TakePosition, TakePositions;
      TakePositionBack(cs[0], Positions(cs[1..]) + rest);
      TakePositionsBack(cs[1..], rest);
      assert Positions(cs) + rest == Position(cs[0]) + (Positions(cs[1..]) + rest);
      TakeOneMore(Positions(cs) + rest, cs[0], Positions(cs[1..]) + rest, cs[1..], rest);
      assert [cs[0]] + cs[1..] == cs;
    }
  }

  /** What follows the operation code of a message. */
  function Body(d: Data): seq<byte> {
    (if d.Caught? then [] else U32(|d.name|) + d.name) + Tail(d)
  }

  /** A receiver gets exactly what was sent, and leaves what follows on the socket. */
  lemma DecodeEncode(op: Operation, d: Data, rest: seq<byte>)
    requires Sound(op, d)
    ensures Encode(op, d) == U32(op.Code()) + Body(d)
    ensures Decode(op, Body(d) + rest) == Some((d, rest))
  {
    hide U32, TakeWord, TakeName, Positions, TakePositions;
    if d.Caught? {
      TakeWordBack(d.result, rest);
      assert Body(d) + rest == U32(d.result) + rest;
    } else {
      TakeNameBack(d.name, Tail(d) + rest);
      assert Body(d) + rest == U32(|d.name|) + d.name + (Tail(d) + rest);
      TailBack(d, rest);
    }
  }

  lemma TailBack(d: Data, rest: seq<byte>)
    ensures d.New? ==> TakePositions(Tail(d) + rest, |d.coordinates|) == Some((d.coordinates, U32(d.quantity) + rest))
    ensures d.New? ==> TakeWord(U32(d.quantity) + rest) == Some((d.quantity, rest))
    ensures d.Placed? ==> TakePositions(Tail(d) + rest, |d.coordinates|) == Some((d.coordinates, rest))
    ensures d.Ask? ==> Tail(d) + rest == rest
    ensures d.Localized? && |d.coordinates| == d.count ==>
      TakeCoordinates(Tail(d) + rest, true) == Some((d.coordinates, rest))
  {
    hide U32, TakeWord, Positions, TakePositions;
    match d
    case New(_, cs, q) =>
      TakePositionsBack(cs, U32(q) + rest);
      TakeWordBack(q, rest);
      assert Tail(d) + rest == Positions(cs) + (U32(q) + rest);
    case Placed(_, cs) =>
      TakePositionsBack(cs, rest);
    case Localized(_, cs, count) =>
      TakeWordBack(count, Positions(cs) + rest);
      TakePositionsBack(cs, rest);
      assert Tail(d) + rest == U32(count) + (Positions(cs) + rest);
    case _ =>
  }

  // ---- Sending undoes receiving ----

  lemma TakenWord(b: seq<byte>)
    requires TakeWord(b).Some?
    ensures b == U32(TakeWord(b).value.0) + TakeWord(b).value.1
  {
    BytesKept(b[..4]);
  }

  lemma TakenName(b: seq<byte>)
    requires TakeName(b).Some?
    ensures var (name, rest) := TakeName(b).value; name != [] && b == U32(|name|) + name + rest
  {
    hide U32;
    TakenWord(b);
  }

  lemma TakenPosition(b: seq<byte>)
    requires TakePosition(b).Some?
    ensures b == Position(TakePosition(b).value.0) + TakePosition(b).value.1
  {
    hide U32, TakeWord;
    TakenWord(b);
    TakenWord(TakeWord(b).value.1);
  }

  lemma {:induction false} TakenPositions(b: seq<byte>, n: nat)
    requires TakePositions(b, n).Some?
    ensures b == Positions(TakePositions(b, n).value.0) + TakePositions(b, n).value.1
  {
    if n > 0 {
      hide Position, TakePosition;
      TakenPosition(b);
      TakenPositions(TakePosition(b).value.1, n - 1);
      var cs := TakePositions(b, n).value.0;
      assert cs[1..] == TakePositions(TakePosition(b).value.1, n - 1).value.0;
    }
  }

  /** Whatever a receiver accepts is the encoding of what it takes it to be: nothing else on
      the wire reads as that message. */
  lemma EncodeDecode(op: Operation, b: seq<byte>)
    requires Decode(op, b).Some?
    ensures var (d, rest) := Decode(op, b).value; Sound(op, d) && b == Body(d) + rest
  {
    hide U32, TakeWord, TakePosition, Positions, Position, TakePositions;
    var (d, rest) := Decode(op, b).value;
    if op.CAUGHT? {
      TakenWord(b);
    } else {
      TakenName(b);
      var b1 := TakeName(b).value.1;
      if op.LOCALIZED? {
        TakenWord(b1);
        TakenPositions(TakeWord(b1).value.1, TakeWord(b1).value.0);
      } else if !op.GET? {
        TakenPositions(b1, 1);
        if op.NEW? { TakenWord(TakePositions(b1, 1).value.1); }
      }
    }
  }

  // ---- Store and forward ----

  lemma StoredParts(d: Data)
    requires !d.Caught? && 0 < |d.name| < 0x1_0000_0000
    ensures var s, n := Stored(d), |d.name| - 1;
      |s| >= 4 + n && OfU32(s[..4]) == n && s[4..4 + n] == d.name[..n] && s[4 + n..] == Tail(d)
  {
    var n := |d.name| - 1;
    WordKept(n);
    hide U32, Tail, OfU32;
    assert Stored(d)[..4] == U32(n);
  }

  lemma RebuiltParts(m: Message, d: Data)
    requires Sound(m.operation, d) && !d.Caught?
    ensures Readable(m, Stored(d))
    ensures var n := |d.name| - 1;
      Rebuild(m, Stored(d)) == U32(m.operation.Code()) + U32(n + 1) + d.name[..n] + [0] + (Tail(d) + U32(SentId(m)))
  {
    StoredParts(d);
    hide U32, Tail, OfU32, Stored, SentId;
  }

  lemma EncodedParts(m: Message, d: Data)
    requires Sound(m.operation, d) && !d.Caught?
    ensures var n := |d.name| - 1;
      Encode(m.operation, d) + U32(SentId(m)) ==
        U32(m.operation.Code()) + U32(n + 1) + d.name[..n] + [d.name[n]] + (Tail(d) + U32(SentId(m)))
  {
    hide U32, Tail, SentId;
    var n := |d.name| - 1;
    assert d.name == d.name[..n] + [d.name[n]];
  }

  lemma OneByteApart(head: seq<byte>, a: byte, b: byte, tail: seq<byte>)
    ensures head + [a] + tail == head + [b] + tail <==> a == b
  {
    assert (head + [a] + tail)[|head|] == a && (head + [b] + tail)[|head|] == b;
  }

  /** What the broker sends on is what the producer sent followed by the id, if and only if
      the name's last byte is the NUL it leaves out of the cache. */
  lemma RebuildStored(m: Message, d: Data)
    requires Sound(m.operation, d)
    ensures Readable(m, Stored(d))
    ensures Rebuild(m, Stored(d)) == Encode(m.operation, d) + U32(SentId(m)) <==> d.Caught? || d.name[|d.name| - 1] == 0
  {
    var code, id := U32(m.operation.Code()), U32(SentId(m));
    if d.Caught? {
      assert Encode(m.operation, d) == code + Tail(d);
    } else {
      var n := |d.name| - 1;
      StoredParts(d);
      RebuiltParts(m, d);
      EncodedParts(m, d);
      hide *;
      OneByteApart(code + U32(n + 1) + d.name[..n], 0, d.name[n], Tail(d) + id);
    }
  }

  /** strlen */
  function Strlen(s: seq<byte>): (n: nat)
    ensures n <= |s| && (forall i :: 0 <= i < n ==> s[i] != 0) && (n < |s| ==> s[n] == 0)
  {
    if s == [] || s[0] == 0 then 0 else 1 + Strlen(s[1..])
  }

  /** A name as create_name makes it: one NUL, at its end. */
  predicate IsName(s: seq<byte>) { s != [] && Strlen(s) == |s| - 1 }

  /** calculate_message_size, in terms of calculate_*_bytes */
  function MessageSize(d: Data): int {
    match d
    case New(name, cs, _) => (4 + (4 + 4 + |cs| * 4 * 2 + Strlen(name) + 1)) - 4 - 1
    case Placed(name, cs) => (4 + 4 + |cs| * 4 * 2 + Strlen(name) + 1) - 4 - 1
    case Ask(name) => (4 + 4 + Strlen(name) + 1) - 4 - 1
    case Localized(name, cs, _) => (4 + (4 + 4 + |cs| * 4 * 2 + Strlen(name) + 1)) - 4 - 1
    case Caught(_) => 4 * 2 - 4
  }

  /** _calculate_bytes_to_send */
  function BytesToSend(op: Operation, dataSize: nat): nat {
    4 + dataSize + (if op.CAUGHT? then 4 else 4 + 1)
  }

  lemma {:induction false} PositionsLength(cs: seq<Coordinate>)
    ensures |Positions(cs)| == 8 * |cs|
  {
    if cs != [] { PositionsLength(cs[1..]); }
  }

  /** The size computed for a message is that of what is stored of it, if and only if its name
      ends at its first NUL. */
  lemma SizesAgree(op: Operation, d: Data)
    requires Sound(op, d)
    ensures MessageSize(d) == |Stored(d)| <==> d.Caught? || IsName(d.name)
  {
    hide U32;
    if d.New? || d.Placed? || d.Localized? { PositionsLength(d.coordinates); }
  }

  /** What is sent on has the size computed for it. */
  lemma SentSize(m: Message, stored: seq<byte>)
    requires Readable(m, stored)
    ensures |Rebuild(m, stored)| == BytesToSend(m.operation, |stored|)
  {
  }

  // ---- Where everything is, byte by byte ----

  /** What follows the name, from i to the end of b. */
  ghost predicate TailAt(d: Data, b: seq<byte>, i: nat) {
    match d
    case New(_, cs, quantity) => (
      && |cs| == 1 && |b| == i + 12
      && WordAt(b, i) == cs[0].x && WordAt(b, i + 4) == cs[0].y && WordAt(b, i + 8) == quantity)
    case Placed(_, cs) => |cs| == 1 && |b| == i + 8 && WordAt(b, i) == cs[0].x && WordAt(b, i + 4) == cs[0].y
    case Ask(_) => |b| == i
    case Caught(result) => |b| == i + 4 && WordAt(b, i) == result
    case Localized(_, cs, count) => (
      && |cs| == count && |b| == i + 4 + 8 * count && WordAt(b, i) == count
      && forall k :: 0 <= k < count ==> PositionAt(cs[k], b, i + 4 + 8 * k))
  }

  ghost predicate PositionAt(c: Coordinate, b: seq<byte>, i: nat) {
    i + 8 <= |b| && WordAt(b, i) == c.x && WordAt(b, i + 4) == c.y
  }

  lemma IsPositionAt(before: seq<byte>, c: Coordinate, after: seq<byte>)
    ensures PositionAt(c, before + Position(c) + after, |before|)
  {
    hide U32, WordAt;
    U32At(before, c.x, U32(c.y) + after);
    U32At(before + U32(c.x), c.y, after);
    assert before + Position(c) + after == before + U32(c.x) + (U32(c.y) + after);
    assert before + Position(c) + after == before + U32(c.x) + U32(c.y) + after;
  }

  lemma {:induction false} PositionsFrom(cs: seq<Coordinate>, k: nat)
    requires k <= |cs|
    ensures Positions(cs) == Positions(cs[..k]) + Positions(cs[k..])
  {
    if k > 0 {
      PositionsFrom(cs[1..], k - 1);
      assert cs[..k][1..] == cs[1..][..k - 1] && cs[k..] == cs[1..][k - 1..];
      assert Positions(cs) == Position(cs[0]) + (Positions(cs[1..][..k - 1]) + Positions(cs[k..]));
    }
  }

  lemma PositionsAround(cs: seq<Coordinate>, k: nat)
    requires k < |cs|
    ensures |Positions(cs[..k])| == 8 * k
    ensures Positions(cs) == Positions(cs[..k]) + Position(cs[k]) + Positions(cs[k + 1..])
  {
    PositionsFrom(cs, k);
    PositionsLength(cs[..k]);
    assert cs[k..][1..] == cs[k + 1..];
    hide Position;
    assert Positions(cs[k..]) == Position(cs[k]) + Positions(cs[k + 1..]);
  }

  lemma OnePositionAt(before: seq<byte>, cs: seq<Coordinate>, k: nat)
    requires k < |cs|
    ensures PositionAt(cs[k], before + Positions(cs), |before| + 8 * k)
  {
    hide *;
    PositionsAround(cs, k);
    var head := before + Positions(cs[..k]);
    IsPositionAt(head, cs[k], Positions(cs[k + 1..]));
    assert head + Position(cs[k]) + Positions(cs[k + 1..]) == before + Positions(cs);
  }

  lemma ArePositionsAt(before: seq<byte>, cs: seq<Coordinate>)
    ensures forall k :: 0 <= k < |cs| ==> PositionAt(cs[k], before + Positions(cs), |before| + 8 * k)
  {
    hide *;
    forall k | 0 <= k < |cs| ensures PositionAt(cs[k], before + Positions(cs), |before| + 8 * k) {
      OnePositionAt(before, cs, k);
    }
  }

  lemma TailLayout(before: seq<byte>, op: Operation, d: Data)
    requires Sound(op, d)
    ensures TailAt(d, before + Tail(d), |before|)
  {
    hide U32, WordAt, PositionAt;
    var b := before + Tail(d);
    match d
    case New(_, cs, quantity) =>
      assert Positions(cs) == Position(cs[0]);
      IsPositionAt(before, cs[0], U32(quantity));
      U32At(before + Positions(cs), quantity, []);
      assert before + Position(cs[0]) + U32(quantity) == b && before + Positions(cs) + U32(quantity) + [] == b;
      PositionMeans(cs[0], b, |before|);
    case Placed(_, cs) =>
      assert Positions(cs) == Position(cs[0]);
      IsPositionAt(before, cs[0], []);
      assert before + Position(cs[0]) + [] == b;
      PositionMeans(cs[0], b, |before|);
    case Ask(_) =>
    case Caught(result) =>
      U32At(before, result, []);
      assert before + U32(result) + [] == b;
    case Localized(_, cs, count) =>
      U32At(before, count, Positions(cs));
      PositionsLength(cs);
      ArePositionsAt(before + U32(count), cs);
      assert before + U32(count) + Positions(cs) == b;
  }

  lemma PositionMeans(c: Coordinate, b: seq<byte>, i: nat)
    requires PositionAt(c, b, i)
    ensures i + 8 <= |b| && WordAt(b, i) == c.x && WordAt(b, i + 4) == c.y
  {
  }

  lemma NameLayout(before: seq<byte>, name: seq<byte>, after: seq<byte>)
    requires |name| < 0x1_0000_0000
    ensures var b, i := before + (U32(|name|) + name) + after, |before|;
      WordAt(b, i) == |name| && b[i + 4..i + 4 + |name|] == name
  {
    hide U32, WordAt;
    var b := before + (U32(|name|) + name) + after;
    assert b == before + U32(|name|) + (name + after);
    U32At(before, |name|, name + after);
  }

  /** The bytes of a message on the wire: the number of its queue, the name's length, the name, and
      then the positions and what else there is. */
  lemma EncodedLayout(op: Operation, d: Data)
    requires Sound(op, d)
    ensures var b := Encode(op, d);
      && |b| >= 4 && (op == NEW ==> WordAt(b, 0) == 1) && (op == LOCALIZED ==> WordAt(b, 0) == 2)
      && (op == GET ==> WordAt(b, 0) == 3) && (op == APPEARED ==> WordAt(b, 0) == 4)
      && (op == CATCH ==> WordAt(b, 0) == 5) && (op == CAUGHT ==> WordAt(b, 0) == 6)
    ensures var b := Encode(op, d);
      if d.Caught? then TailAt(d, b, 4)
      else
        var n := |d.name|;
        |b| >= 8 + n && WordAt(b, 4) == n && b[8..8 + n] == d.name && TailAt(d, b, 8 + n)
  {
    hide U32, WordAt, TailAt, Tail;
    var b, code := Encode(op, d), U32(op.Code());
    assert [] + code + b[4..] == b;
    U32At([], op.Code(), b[4..]);
    if d.Caught? {
      assert code + Tail(d) == b;
      TailLayout(code, op, d);
    } else {
      assert code + (U32(|d.name|) + d.name) + Tail(d) == b;
      NameLayout(code, d.name, Tail(d));
      TailLayout(code + (U32(|d.name|) + d.name), op, d);
    }
  }

  /** The bytes that are cached: neither the number of the queue nor the name's last byte. */
  lemma StoredLayout(op: Operation, d: Data)
    requires Sound(op, d)
    ensures var b := Stored(d);
      if d.Caught? then TailAt(d, b, 0)
      else
        var n := |d.name| - 1;
        |b| >= 4 + n && WordAt(b, 0) == n && b[4..4 + n] == d.name[..n] && TailAt(d, b, 4 + n)
  {
    hide U32, WordAt, TailAt, Tail;
    var b := Stored(d);
    if d.Caught? {
      assert [] + Tail(d) == b;
      TailLayout([], op, d);
    } else {
      var name := d.name[..|d.name| - 1];
      assert [] + (U32(|name|) + name) + Tail(d) == b && U32(|name|) + name + Tail(d) == b;
      NameLayout([], name, Tail(d));
      TailLayout(U32(|name|) + name, op, d);
    }
  }

  /** The last four bytes the broker sends on are the message's id if it is to be answered, and
      otherwise that of the message it answers. */
  lemma IdAtEnd(m: Message, stored: seq<byte>)
    requires Readable(m, stored)
    ensures var b := Rebuild(m, stored);
      && |b| >= 4
      && (m.operation in {NEW, GET, CATCH} ==> OfU32(b[|b| - 4..]) == m.id % 0x1_0000_0000)
      && (m.operation in {APPEARED, CAUGHT, LOCALIZED} ==> OfU32(b[|b| - 4..]) == m.correlationalId % 0x1_0000_0000)
  {
    hide U32, OfU32;
    var b := Rebuild(m, stored);
    var before := b[..|b| - 4];
    assert before + U32(SentId(m)) + [] == b;
    U32At(before, SentId(m), []);
    BytesOf(b, |b| - 4);
    assert b[|b| - 4..] == b[|b| - 4..|b| - 4 + 4];
  }

  lemma IsNameEnds(d: Data)
    requires d.Caught? || IsName(d.name)
    ensures d.Caught? || (d.name != [] && d.name[|d.name| - 1] == 0)
  {
  }

  /** Sending stored on gives d's producer's bytes, m's id, and d itself to whoever reads
      them, in as many bytes as computed. */
  ghost predicate Forwards(m: Message, stored: seq<byte>, d: Data) {
    && Readable(m, stored)
    && |Rebuild(m, stored)| == BytesToSend(m.operation, |stored|)
    && Rebuild(m, stored) == Encode(m.operation, d) + U32(SentId(m))
    && Decode(m.operation, Rebuild(m, stored)[4..]) == Some((d, U32(SentId(m))))
  }

  lemma AfterCode(code: seq<byte>, body: seq<byte>, id: seq<byte>)
    requires |code| == 4
    ensures (code + body + id)[4..] == body + id
  {
  }

  lemma ForwardsWhen(m: Message, stored: seq<byte>, d: Data)
    requires Readable(m, stored)
    requires |Rebuild(m, stored)| == BytesToSend(m.operation, |stored|)
    requires Rebuild(m, stored) == Encode(m.operation, d) + U32(SentId(m))
    requires Encode(m.operation, d) == U32(m.operation.Code()) + Body(d)
    requires (U32(m.operation.Code()) + Body(d) + U32(SentId(m)))[4..] == Body(d) + U32(SentId(m))
    requires Decode(m.operation, Body(d) + U32(SentId(m))) == Some((d, U32(SentId(m))))
    ensures Forwards(m, stored, d)
  {
    hide U32, Body, Encode, Decode, Rebuild, BytesToSend;
  }

  /** A subscriber of the queue gets the producer's message, and then the id. */
  lemma StoreAndForward(m: Message, d: Data)
    requires Sound(m.operation, d) && (d.Caught? || IsName(d.name))
    ensures |Stored(d)| == MessageSize(d) && Forwards(m, Stored(d), d)
    ensures var b := Rebuild(m, Stored(d));
      && |b| == |Encode(m.operation, d)| + 4 && b[..|b| - 4] == Encode(m.operation, d)
      && (m.operation in {NEW, GET, CATCH} ==> OfU32(b[|b| - 4..]) == m.id % 0x1_0000_0000)
      && (m.operation in {APPEARED, CAUGHT, LOCALIZED} ==> OfU32(b[|b| - 4..]) == m.correlationalId % 0x1_0000_0000)
  {
    IsNameEnds(d);
    hide *;
    RebuildStored(m, d);
    SizesAgree(m.operation, d);
    SentSize(m, Stored(d));
    DecodeEncode(m.operation, d, U32(SentId(m)));
    AfterCode(U32(m.operation.Code()), Body(d), U32(SentId(m)));
    ForwardsWhen(m, Stored(d), d);
    IdAtEnd(m, Stored(d));
    ThenTheId(Rebuild(m, Stored(d)), Encode(m.operation, d), U32(SentId(m)));
  }

  lemma ThenTheId(b: seq<byte>, body: seq<byte>, id: seq<byte>)
    requires b == body + id && |id| == 4
    ensures |b| == |body| + 4 && b[..|b| - 4] == body
  {
  }
}

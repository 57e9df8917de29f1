/** The code that fills and reads the buffers of Wire.dfy: the producers' serializers (libs/src),
    serialize_data and copy_message_from_memory of broker/src/serialization.c, and the
    receivers. */
module Serialization {
  import opened Protocol
  import opened Partitions
  import opened Wire

  class Name {
    /** What is announced on the wire; serialize_data makes it smaller by one. */
    var size: nat
    const value: seq<byte>

    /** create_name */
    constructor (text: seq<byte>)
      ensures IsName(value) && size == |value| && value == text[..Strlen(text)] + [0]
    {
      value := text[..Strlen(text)] + [0];
      size := Strlen(text) + 1;
      StrlenIs(text[..Strlen(text)] + [0], Strlen(text));
    }
  }

  lemma StrlenIs(s: seq<byte>, n: nat)
    requires n < |s| && s[n] == 0 && forall i :: 0 <= i < n ==> s[i] != 0
    ensures Strlen(s) == n
  {
  }

  /** New, Pokemon, Get, Caught and Localized of libs/include/protocol.h. */
  datatype Payload =
    | NewPayload(name: Name, coordinates: seq<Coordinate>, quantity: word)
    | PlacedPayload(name: Name, coordinates: seq<Coordinate>)
    | AskPayload(name: Name)
    | CaughtPayload(result: word)
    | LocalizedPayload(name: Name, coordinates: seq<Coordinate>, count: word)
  {
    function Value(): Data {
      match this
      case NewPayload(name, cs, quantity) => New(name.value, cs, quantity)
      case PlacedPayload(name, cs) => Placed(name.value, cs)
      case AskPayload(name) => Ask(name.value)
      case CaughtPayload(result) => Caught(result)
      case LocalizedPayload(name, cs, count) => Localized(name.value, cs, count)
    }

    /** The name's size is that of its bytes. */
    ghost predicate Sized()
      reads if CaughtPayload? then {} else {name}
    {
      !CaughtPayload? ==> name.size == |name.value|
    }
  }

  /** memcpy to the buffer at the displacement, which moves past what was copied. */
  method Append(buffer: array<byte>, displacement: nat, bytes: seq<byte>) returns (next: nat)
    requires displacement + |bytes| <= buffer.Length
    modifies buffer
    ensures next == displacement + |bytes| && buffer[..next] == old(buffer[..displacement]) + bytes
  {
    ghost var before := buffer[..displacement];
    for i := 0 to |bytes|
      invariant buffer[..displacement + i] == before + bytes[..i]
    {
      buffer[displacement + i] := bytes[i];
    }
    next := displacement + |bytes|;
  }

  method AppendPosition(buffer: array<byte>, displacement: nat, c: Coordinate) returns (next: nat)
    requires displacement + 8 <= buffer.Length
    modifies buffer
    ensures next == displacement + 8 && buffer[..next] == old(buffer[..displacement]) + Position(c)
  {
    next := Append(buffer, displacement, U32(c.x));
    next := Append(buffer, next, U32(c.y));
  }

  lemma PositionsOneMore(cs: seq<Coordinate>, i: nat)
    requires i < |cs|
    ensures Positions(cs[..i + 1]) == Positions(cs[..i]) + Position(cs[i])
    decreases i
  {
    if i > 0 {
      PositionsOneMore(cs[1..], i - 1);
      assert cs[..i + 1][1..] == cs[1..][..i] && cs[..i][1..] == cs[1..][..i - 1];
    }
  }

  lemma PositionsUpTo(cs: seq<Coordinate>, i: nat)
    requires i <= |cs|
    ensures |Positions(cs[..i])| == 8 * i <= |Positions(cs)|
  {
    PositionsLength(cs[..i]);
    PositionsLength(cs);
  }

  /** The loop of serialize_localized, and of serialize_data for LOCALIZED. */
  method AppendPositions(buffer: array<byte>, displacement: nat, cs: seq<Coordinate>) returns (next: nat)
    requires displacement + |Positions(cs)| <= buffer.Length
    modifies buffer
    ensures next == displacement + |Positions(cs)| && buffer[..next] == old(buffer[..displacement]) + Positions(cs)
  {
    next := displacement;
    ghost var before := buffer[..displacement];
    for i := 0 to |cs|
      invariant next == displacement + 8 * i <= buffer.Length
      invariant buffer[..next] == before + Positions(cs[..i])
    {
      PositionsOneMore(cs, i);
      PositionsUpTo(cs, i + 1);
      PositionsUpTo(cs, |cs|);
      next := AppendPosition(buffer, next, cs[i]);
    }
    assert cs[..|cs|] == cs;
    PositionsUpTo(cs, |cs|);
  }

  /** The part of a serializer after the name. */
  method AppendTail(buffer: array<byte>, displacement: nat, p: Payload) returns (next: nat)
    requires p.NewPayload? || p.PlacedPayload? ==> |p.coordinates| == 1
    requires displacement + |Tail(p.Value())| == buffer.Length
    modifies buffer
    ensures next == buffer.Length && buffer[..] == old(buffer[..displacement]) + Tail(p.Value())
  {
    hide U32, Positions;
    next := displacement;
    OnePosition(p);
    match p {
      case NewPayload(_, cs, quantity) =>
        next := AppendPosition(buffer, next, cs[0]);
        next := Append(buffer, next, U32(quantity));
      case PlacedPayload(_, cs) =>
        next := AppendPosition(buffer, next, cs[0]);
      case AskPayload(_) =>
      case CaughtPayload(result) =>
        next := Append(buffer, next, U32(result));
      case LocalizedPayload(_, cs, count) =>
        next := Append(buffer, next, U32(count));
        next := AppendPositions(buffer, next, cs);
    }
    assert buffer[..next] == buffer[..];
  }

  lemma OnePosition(p: Payload)
    requires p.NewPayload? || p.PlacedPayload? ==> |p.coordinates| == 1
    ensures p.NewPayload? || p.PlacedPayload? ==> Positions(p.coordinates) == Position(p.coordinates[0])
    ensures p.NewPayload? || p.PlacedPayload? ==> |Position(p.coordinates[0])| == 8
  {
  }

  /** serialize_new, serialize_pokemon, serialize_get, serialize_caught, serialize_localized */
  method Serialize(op: Operation, p: Payload, bytes: nat) returns (buffer: array<byte>)
    requires Sound(op, p.Value()) && p.Sized() && bytes == |Encode(op, p.Value())|
    ensures fresh(buffer) && buffer[..] == Encode(op, p.Value())
    ensures WordAt(buffer[..], 0) ==
      match op case NEW => 1 case LOCALIZED => 2 case GET => 3 case APPEARED => 4 case CATCH => 5 case CAUGHT => 6
  {
    hide U32, Tail, WordAt;
    buffer := new byte[bytes];
    var displacement := Append(buffer, 0, U32(op.Code()));
    if !p.CaughtPayload? {
      displacement := Append(buffer, displacement, U32(p.name.size));
      displacement := Append(buffer, displacement, p.name.value);
    }
    displacement := AppendTail(buffer, displacement, p);
    CodeFirst(op, p.Value());
  }

  lemma CodeFirst(op: Operation, d: Data)
    requires Sound(op, d)
    ensures |Encode(op, d)| >= 4 && WordAt(Encode(op, d), 0) ==
      match op case NEW => 1 case LOCALIZED => 2 case GET => 3 case APPEARED => 4 case CATCH => 5 case CAUGHT => 6
  {
    EncodedLayout(op, d);
    hide WordAt, Encode;
  }

  /** serialize_data: it leaves the name's size one smaller. */
  method SerializeData(op: Operation, p: Payload, bytes: nat) returns (buffer: array<byte>)
    requires Sound(op, p.Value()) && p.Sized() && bytes == |Stored(p.Value())|
    modifies if p.CaughtPayload? then {} else {p.name}
    ensures fresh(buffer) && buffer[..] == Stored(p.Value())
    ensures !p.CaughtPayload? ==> p.name.size == old(p.name.size) - 1
  {
    hide U32, Tail;
    buffer := new byte[bytes];
    var displacement := 0;
    if !p.CaughtPayload? {
      p.name.size := p.name.size - 1;
      displacement := Append(buffer, displacement, U32(p.name.size));
      displacement := Append(buffer, displacement, p.name.value[..p.name.size]);
    }
    displacement := AppendTail(buffer, displacement, p);
  }

  /** The name with its size and its closing NUL, and what follows it. */
  method AppendStored(message: array<byte>, displacement: nat, stored: seq<byte>) returns (next: nat)
    requires |stored| >= 4 && |stored| >= 4 + OfU32(stored[..4]) && displacement + |stored| + 1 <= message.Length
    modifies message
    ensures next == displacement + |stored| + 1
    ensures var n := OfU32(stored[..4]);
      message[..next] == old(message[..displacement]) + (U32(n + 1) + stored[4..4 + n] + [0] + stored[4 + n..])
  {
    hide U32, OfU32;
    var nameSize := OfU32(stored[..4]);
    var realSize := nameSize as nat + 1;
    next := Append(message, displacement, U32(realSize));
    next := Append(message, next, stored[4..4 + nameSize]);
    next := Append(message, next, [0]);
    next := Append(message, next, stored[4 + nameSize..]);
  }

  /** copy_message_from_memory, for the partition at that position of the cache. */
  method CopyMessageFromMemory(cache: array<byte>, position: nat, m: Message, bytes: nat) returns (message: array<byte>)
    requires position + m.dataSize <= cache.Length && Readable(m, cache[position..position + m.dataSize])
    requires bytes == BytesToSend(m.operation, m.dataSize)
    ensures fresh(message) && message[..] == Rebuild(m, cache[position..position + m.dataSize])
    ensures message.Length >= 4
    ensures m.operation in {NEW, GET, CATCH} ==> OfU32(message[message.Length - 4..]) == m.id % 0x1_0000_0000
    ensures m.operation in {APPEARED, CAUGHT, LOCALIZED} ==>
      OfU32(message[message.Length - 4..]) == m.correlationalId % 0x1_0000_0000
  {
    hide U32, OfU32;
    message := new byte[bytes];
    var stored := cache[position..position + m.dataSize];
    var displacement := Append(message, 0, U32(m.operation.Code()));
    if m.operation.CAUGHT? {
      displacement := Append(message, displacement, stored);
    } else {
      displacement := AppendStored(message, displacement, stored);
    }
    displacement := Append(message, displacement, U32(SentId(m)));
    assert message[..displacement] == message[..];
    IdAtEnd(m, stored);
  }

  // ---- Receivers ----

  /** What a receive returns and leaves on the socket, when a decoder of Wire.dfy says so. */
  ghost predicate Gets<T>(r: Option<T>, left: seq<byte>, decoded: Option<(T, seq<byte>)>) {
    match decoded
    case None => r.None?
    case Some((value, rest)) => r == Some(value) && left == rest
  }

  class Socket {
    var incoming: seq<byte>

    /** recv of n bytes: a closed connection and a receive of nothing both return 0 or less. */
    method Receive(n: nat) returns (r: Option<seq<byte>>)
      modifies this
      ensures n == 0 || n > old(|incoming|) ==> r == None
      ensures 0 < n <= old(|incoming|) ==> r == Some(old(incoming)[..n]) && incoming == old(incoming)[n..]
    {
      if n == 0 || n > |incoming| { return None; }
      r := Some(incoming[..n]);
      incoming := incoming[n..];
    }

    method ReceiveWord() returns (r: Option<word>)
      modifies this
      ensures Gets(r, incoming, TakeWord(old(incoming)))
    {
      var bytes := Receive(4);
      if bytes.None? { return None; }
      r := Some(OfU32(bytes.value));
    }

    /** recv_name */
    method ReceiveName() returns (r: Option<seq<byte>>)
      modifies this
      ensures Gets(r, incoming, TakeName(old(incoming)))
    {
      hide U32, OfU32, TakeWord;
      var size := ReceiveWord();
      if size.None? { return None; }
      r := Receive(size.value);
    }

    /** recv_coordinate */
    method ReceiveCoordinate() returns (r: Option<Coordinate>)
      modifies this
      ensures Gets(r, incoming, TakePosition(old(incoming)))
    {
      hide U32, OfU32, TakeWord;
      var x := ReceiveWord();
      if x.None? { return None; }
      var y := ReceiveWord();
      if y.None? { return None; }
      r := Some(Coordinate(x.value, y.value));
    }

    method ReceiveMany(n: nat) returns (r: Option<seq<Coordinate>>)
      modifies this
      ensures Gets(r, incoming, TakePositions(old(incoming), n))
    {
      hide TakePosition;
      var cs := [];
      JoinedNone(TakePositions(incoming, n));
      for i := 0 to n
        invariant |cs| == i && TakePositions(old(incoming), n) == Joined(cs, TakePositions(incoming, n - i))
      {
        ghost var before := incoming;
        var c := ReceiveCoordinate();
        JoinedOneMore(cs, before, n - i);
        if c.None? { return None; }
        cs := cs + [c.value];
      }
      assert cs + [] == cs;
      r := Some(cs);
    }

    /** recv_coordinates */
    method ReceiveCoordinates(many: bool) returns (r: Option<seq<Coordinate>>)
      modifies this
      ensures Gets(r, incoming, TakeCoordinates(old(incoming), many))
    {
      hide TakePositions, TakeWord;
      if many {
        var n := ReceiveWord();
        if n.None? { return None; }
        r := ReceiveMany(n.value);
      } else {
        r := ReceiveMany(1);
      }
    }

    /** recv_pokemon */
    method ReceivePokemon(many: bool) returns (r: Option<(seq<byte>, seq<Coordinate>)>)
      modifies this
      ensures Gets(r, incoming, TakePlaced(old(incoming), many))
    {
      hide TakeName, TakeCoordinates;
      var name := ReceiveName();
      if name.None? { return None; }
      var coordinates := ReceiveCoordinates(many);
      if coordinates.None? { return None; }
      r := Some((name.value, coordinates.value));
    }

    /** recv_new, recv_pokemon, recv_get, recv_caught or recv_localized, as the operation
        says. */
    method ReceiveData(op: Operation) returns (r: Option<Data>)
      modifies this
      ensures Gets(r, incoming, Decode(op, old(incoming)))
      ensures r.None? <==> Decode(op, old(incoming)).None?
      ensures r.Some? ==> Decode(op, old(incoming)) == Some((r.value, incoming))
    {
      hide TakeName, TakePlaced, TakeWord;
      match op {
        case NEW =>
          var pokemon := ReceivePokemon(false);
          if pokemon.None? { return None; }
          var quantity := ReceiveWord();
          if quantity.None? { return None; }
          r := Some(New(pokemon.value.0, pokemon.value.1, quantity.value));
        case GET =>
          var name := ReceiveName();
          if name.None? { return None; }
          r := Some(Ask(name.value));
        case CAUGHT =>
          var result := ReceiveWord();
          if result.None? { return None; }
          r := Some(Caught(result.value));
        case LOCALIZED =>
          var pokemon := ReceivePokemon(true);
          if pokemon.None? { return None; }
          FewPositions(old(incoming));
          r := Some(Localized(pokemon.value.0, pokemon.value.1, |pokemon.value.1|));
        case _ =>
          var pokemon := ReceivePokemon(false);
          if pokemon.None? { return None; }
          r := Some(Placed(pokemon.value.0, pokemon.value.1));
      }
    }
  }

  lemma FewPositions(b: seq<byte>)
    requires TakePlaced(b, true).Some?
    ensures |TakePlaced(b, true).value.0.1| < 0x1_0000_0000
  {
  }

  /** The positions of cs, and then those decoded after them. */
  function Joined(cs: seq<Coordinate>, decoded: Option<(seq<Coordinate>, seq<byte>)>)
    : Option<(seq<Coordinate>, seq<byte>)>
  {
    match decoded
    case None => None
    case Some((more, rest)) => Some((cs + more, rest))
  }

  lemma JoinedNone(decoded: Option<(seq<Coordinate>, seq<byte>)>)
    ensures Joined([], decoded) == decoded
  {
    if decoded.Some? { assert [] + decoded.value.0 == decoded.value.0; }
  }

  lemma JoinedOneMore(cs: seq<Coordinate>, b: seq<byte>, n: nat)
    requires n > 0
    ensures TakePosition(b).None? ==> TakePositions(b, n).None?
    ensures TakePosition(b).Some? ==>
      var (c, rest) := TakePosition(b).value;
      Joined(cs, TakePositions(b, n)) == Joined(cs + [c], TakePositions(rest, n - 1))
  {
    hide TakePosition;
    if TakePosition(b).Some? {
      var (c, rest) := TakePosition(b).value;
      if TakePositions(rest, n - 1).Some? {
        var more := TakePositions(rest, n - 1).value.0;
        assert cs + ([c] + more) == cs + [c] + more;
      }
    }
  }
}

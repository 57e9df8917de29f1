/** The cache and the wire together (new_request, save_message and copy_message_from_memory in
    broker/src): what a subscriber is sent, however long after the message came in. */
module Forwarding {
  import opened Protocol
  import opened Partitions
  import opened Cache
  import opened Runs
  import opened Wire

  /** Each save of the run is a request for what was received: sent[k] is what the k-th
      operation stores, if it is a save. */
  ghost predicate Requests(ops: seq<Op>, sent: seq<Data>) {
    && |sent| == |ops|
    && forall k :: 0 <= k < |ops| && ops[k].SaveOp? ==> IsRequest(ops[k].m, ops[k].data, sent[k])
  }

  ghost predicate IsRequest(m: Message, data: seq<byte>, d: Data) {
    Sound(m.operation, d) && (d.Caught? || IsName(d.name)) && data == Stored(d)
  }

  /** What p holds is sent on as d, and b are the bytes. */
  ghost predicate SendsOn(p: Part, bytes: seq<byte>, m: Message, d: Data, b: seq<byte>) {
    p.position + m.dataSize <= |bytes| && Forwards(m, bytes[p.position..p.position + m.dataSize], d)
    && b == Rebuild(m, bytes[p.position..p.position + m.dataSize])
  }

  /** At any point of any run, whatever has been evicted, merged, split or compacted since, a
      message that is still cached is sent on as its producer sent it, followed by its id. */
  lemma CachedIsSentOn(cfg: Config, w: World, ops: seq<Op>, sent: seq<Data>, i: nat) returns (k: nat, b: seq<byte>)
    requires IsInit(cfg, w) && WorldOk(cfg, w) && LegalRun(cfg, w, ops) && Requests(ops, sent)
    requires i < |Run(cfg, w, ops).store.parts| && !Run(cfg, w, ops).store.parts[i].free
    ensures k < |ops| && ops[k].SaveOp?
    ensures var s := Run(cfg, w, ops).store;
      s.parts[i].message == Some(ops[k].m) && SendsOn(s.parts[i], s.bytes, ops[k].m, sent[k], b)
    ensures |b| == |Encode(ops[k].m.operation, sent[k])| + 4 && b[..|b| - 4] == Encode(ops[k].m.operation, sent[k])
    ensures ops[k].m.operation in {NEW, GET, CATCH} ==> OfU32(b[|b| - 4..]) == ops[k].m.id % 0x1_0000_0000
    ensures ops[k].m.operation in {APPEARED, CAUGHT, LOCALIZED} ==>
      OfU32(b[|b| - 4..]) == ops[k].m.correlationalId % 0x1_0000_0000
  {
    hide *;
    CachedBytes(cfg, w, ops, i);
    var s := Run(cfg, w, ops).store;
    var p := s.parts[i];
    k :| 0 <= k < |ops| && ops[k].SaveOp? && ops[k].m == p.message.value
      && p.position + |ops[k].data| <= |s.bytes| && s.bytes[p.position..p.position + |ops[k].data|] == ops[k].data;
    RequestAt(ops, sent, k);
    SavedWhole(cfg, w, ops, k);
    b := SentOn(p, s.bytes, ops[k].m, ops[k].data, sent[k]);
  }

  lemma RequestAt(ops: seq<Op>, sent: seq<Data>, k: nat)
    requires Requests(ops, sent) && k < |ops| && ops[k].SaveOp?
    ensures |sent| == |ops| && IsRequest(ops[k].m, ops[k].data, sent[k])
  {
  }

  lemma SentOn(p: Part, bytes: seq<byte>, m: Message, data: seq<byte>, d: Data) returns (b: seq<byte>)
    requires IsRequest(m, data, d) && |data| == m.dataSize && p.position + |data| <= |bytes|
    requires bytes[p.position..p.position + |data|] == data
    ensures SendsOn(p, bytes, m, d, b)
    ensures |b| == |Encode(m.operation, d)| + 4 && b[..|b| - 4] == Encode(m.operation, d)
    ensures m.operation in {NEW, GET, CATCH} ==> OfU32(b[|b| - 4..]) == m.id % 0x1_0000_0000
    ensures m.operation in {APPEARED, CAUGHT, LOCALIZED} ==> OfU32(b[|b| - 4..]) == m.correlationalId % 0x1_0000_0000
  {
    hide Stored, MessageSize, IsName, Rebuild, Encode, OfU32, Decode, BytesToSend, U32;
    StoreAndForward(m, d);
    assert bytes[p.position..p.position + m.dataSize] == Stored(d);
    b := Rebuild(m, Stored(d));
  }

  /** A save stores as many bytes as its message says. */
  lemma {:induction false} SavedWhole(cfg: Config, w: World, ops: seq<Op>, k: nat)
    requires IsInit(cfg, w) && WorldOk(cfg, w) && LegalRun(cfg, w, ops) && k < |ops| && ops[k].SaveOp?
    ensures |ops[k].data| == ops[k].m.dataSize
  {
    if k < |ops| - 1 { SavedWhole(cfg, w, ops[..|ops| - 1], k); }
  }
}

/** Responses of more than 1400 bytes, sent as several packets. */
module MdnsPackets {
  import opened Bytes
  import opened DnsMessage
  import opened DnsRoundTrip
  import DnsCodec

  const MAX_PACKET := 1400

  /** A record and the section it goes to. */
  datatype Item = Item(record: Record, additional: bool)

  function Push(m: Message, x: Item): Message {
    if x.additional then m.(additionals := m.additionals + [x.record]) else m.(answers := m.answers + [x.record])
  }

  function Count(m: Message): nat { |m.answers| + |m.additionals| }

  function Bare(m: Message): Message { m.(answers := [], additionals := []) }

  function Tagged(rs: seq<Record>, additional: bool): seq<Item> {
    if rs == [] then [] else [Item(rs[0], additional)] + Tagged(rs[1..], additional)
  }

  function Size(m: Message): nat { |Serialize(m)| }

  predicate Oversized(size: Message -> nat, m: Message) { Count(m) > 1 && size(m) > MAX_PACKET }

  function Section(m: Message, additional: bool): seq<Record> { if additional then m.additionals else m.answers }

  /** Fills `cur` item by item and starts over from `base` whenever the next item does not fit. */
  function Fill(size: Message -> nat, base: Message, cur: Message, items: seq<Item>): seq<Message>
    decreases |items|
  {
    if items == [] then (if Count(cur) == 0 then [] else [cur])
    else if Oversized(size, Push(cur, items[0])) then [cur] + Fill(size, base, Push(base, items[0]), items[1..])
    else Fill(size, base, Push(cur, items[0]), items[1..])
  }

  function Parts(m: Message): seq<Message> {
    if Size(m) <= MAX_PACKET || m.authorities != [] then [m]
    else Fill(Size, Bare(m), Bare(m), Tagged(m.answers, false) + Tagged(m.additionals, true))
  }

  function SerializeAll(ms: seq<Message>): seq<seq<byte>> {
    if ms == [] then [] else [Serialize(ms[0])] + SerializeAll(ms[1..])
  }

  /** One section of every packet, end to end. */
  function Gather(ms: seq<Message>, additional: bool): seq<Record> {
    if ms == [] then [] else Section(ms[0], additional) + Gather(ms[1..], additional)
  }

  function Records(items: seq<Item>, additional: bool): seq<Record> {
    if items == [] then []
    else (if items[0].additional == additional then [items[0].record] else []) + Records(items[1..], additional)
  }

  /** A packet repeats everything but the records, holds some, and is small enough unless it holds
      only one. */
  predicate Packet(size: Message -> nat, base: Message, m: Message) {
    Bare(m) == base && Count(m) > 0 && (Count(m) == 1 || size(m) <= 1400)
  }

  /** No answer follows an additional record. */
  predicate AnswersFirst(ms: seq<Message>) {
    forall i, j :: 0 <= i < j < |ms| ==> ms[i].additionals != [] ==> ms[j].answers == []
  }

  predicate OnlyAdditionals(items: seq<Item>) { forall i :: 0 <= i < |items| ==> items[i].additional }

  /** Answers come first in what is left to place. */
  predicate Ordered(items: seq<Item>) {
    forall i, j :: 0 <= i < j < |items| ==> items[i].additional ==> items[j].additional
  }

  lemma {:induction false} FillPackets(size: Message -> nat, base: Message, cur: Message, items: seq<Item>)
    requires Bare(base) == base && Bare(cur) == base && (Count(cur) == 0 || Packet(size, base, cur))
    ensures forall i :: 0 <= i < |Fill(size, base, cur, items)| ==> Packet(size, base, Fill(size, base, cur, items)[i])
    decreases |items|
  {
    if items != [] {
      if Oversized(size, Push(cur, items[0])) {
        FillPackets(size, base, Push(base, items[0]), items[1..]);
      } else {
        FillPackets(size, base, Push(cur, items[0]), items[1..]);
      }
    }
  }

  lemma {:induction false} PushSection(m: Message, x: Item, rest: seq<Record>, additional: bool)
    ensures Section(Push(m, x), additional) + rest ==
            Section(m, additional) + ((if x.additional == additional then [x.record] else []) + rest)
  {
    if x.additional == additional {
      assert Section(Push(m, x), additional) == Section(m, additional) + [x.record];
      assert Section(m, additional) + [x.record] + rest == Section(m, additional) + ([x.record] + rest);
    } else {
      assert [] + rest == rest;
    }
  }

  lemma {:induction false} FillGathers(size: Message -> nat, base: Message, cur: Message, items: seq<Item>, additional: bool)
    requires Section(base, additional) == []
    ensures Gather(Fill(size, base, cur, items), additional) == Section(cur, additional) + Records(items, additional)
    decreases |items|
  {
    if items != [] {
      var x, rest := items[0], Records(items[1..], additional);
      if Oversized(size, Push(cur, x)) {
        FillGathers(size, base, Push(base, x), items[1..], additional);
        PushSection(base, x, rest, additional);
        assert [] + Records(items, additional) == Records(items, additional);
      } else {
        FillGathers(size, base, Push(cur, x), items[1..], additional);
        PushSection(cur, x, rest, additional);
      }
    }
  }

  lemma {:induction false} FillOrdered(size: Message -> nat, base: Message, cur: Message, items: seq<Item>)
    requires base.answers == [] && base.additionals == [] && Ordered(items)
    requires cur.additionals != [] ==> OnlyAdditionals(items)
    ensures AnswersFirst(Fill(size, base, cur, items))
    ensures OnlyAdditionals(items) && cur.answers == [] ==>
      forall i :: 0 <= i < |Fill(size, base, cur, items)| ==> Fill(size, base, cur, items)[i].answers == []
    decreases |items|
  {
    if items != [] {
      var x, rest := items[0], items[1..];
      assert forall i :: 0 <= i < |rest| ==> rest[i] == items[i + 1];
      if Oversized(size, Push(cur, x)) {
        FillOrdered(size, base, Push(base, x), rest);
      } else {
        FillOrdered(size, base, Push(cur, x), rest);
      }
    }
  }

  lemma {:induction false} TaggedFacts(rs: seq<Record>, additional: bool)
    ensures |Tagged(rs, additional)| == |rs| && forall i :: 0 <= i < |rs| ==> Tagged(rs, additional)[i].additional == additional
    ensures Records(Tagged(rs, additional), additional) == rs && Records(Tagged(rs, additional), !additional) == []
  {
    if rs != [] { TaggedFacts(rs[1..], additional); }
  }

  lemma {:induction false} RecordsAppend(a: seq<Item>, b: seq<Item>, additional: bool)
    ensures Records(a + b, additional) == Records(a, additional) + Records(b, additional)
  {
    if a == [] {
      assert a + b == b;
    } else {
      assert (a + b)[1..] == a[1..] + b;
      RecordsAppend(a[1..], b, additional);
    }
  }

  /** Main result: splitting a response loses, repeats and reorders nothing; every packet repeats
      the header fields and questions, holds something, and fits the limit unless one record alone
      does not; answers go out before additionals. */
  lemma {:induction false} SplitConserves(m: Message)
    requires Count(m) > 0 && m.authorities == []
    ensures var ms := Parts(m);
      Gather(ms, false) == m.answers && Gather(ms, true) == m.additionals && AnswersFirst(ms) &&
      forall i :: 0 <= i < |ms| ==> Packet(Size, Bare(m), ms[i])
  {
    if Size(m) <= MAX_PACKET {
      assert m.answers + [] == m.answers && m.additionals + [] == m.additionals;
    } else {
      FilledConserves(Size, m);
    }
  }

  lemma {:induction false} ItemsFacts(m: Message)
    ensures var items := Tagged(m.answers, false) + Tagged(m.additionals, true);
      Ordered(items) && Records(items, false) == m.answers && Records(items, true) == m.additionals
  {
    var a, b := Tagged(m.answers, false), Tagged(m.additionals, true);
    TaggedFacts(m.answers, false);
    TaggedFacts(m.additionals, true);
    RecordsAppend(a, b, false);
    RecordsAppend(a, b, true);
    assert m.answers + [] == m.answers && [] + m.additionals == m.additionals;
  }

  lemma {:induction false} FilledConserves(size: Message -> nat, m: Message)
    ensures var ms := Fill(size, Bare(m), Bare(m), Tagged(m.answers, false) + Tagged(m.additionals, true));
      Gather(ms, false) == m.answers && Gather(ms, true) == m.additionals && AnswersFirst(ms) &&
      forall i :: 0 <= i < |ms| ==> Packet(size, Bare(m), ms[i])
  {
    var base, items := Bare(m), Tagged(m.answers, false) + Tagged(m.additionals, true);
    ItemsFacts(m);
    FillGathers(size, base, base, items, false);
    FillGathers(size, base, base, items, true);
    assert [] + m.answers == m.answers && [] + m.additionals == m.additionals;
    FillPackets(size, base, base, items);
    FillOrdered(size, base, base, items);
  }

  /** The record a packet starts with. */
  function FirstItem(m: Message): Item
    requires Count(m) > 0
  {
    if m.answers != [] then Item(m.answers[0], false) else Item(m.additionals[0], true)
  }

  /** The packet has no room for what the next one starts with. */
  predicate NoRoom(size: Message -> nat, m: Message, next: Message) { Count(next) > 0 && size(Push(m, FirstItem(next))) > 1400 }

  ghost predicate EachFull(size: Message -> nat, ms: seq<Message>) {
    forall i, j :: 0 <= i && j == i + 1 < |ms| ==> NoRoom(size, ms[i], ms[j])
  }

  /** The packet being filled keeps what it has. */
  lemma {:induction false} FillStarts(size: Message -> nat, base: Message, cur: Message, items: seq<Item>)
    requires Count(cur) > 0 && Ordered(items) && (cur.additionals != [] ==> OnlyAdditionals(items))
    ensures var ms := Fill(size, base, cur, items);
      ms != [] && cur.answers <= ms[0].answers && cur.additionals <= ms[0].additionals &&
      (OnlyAdditionals(items) ==> ms[0].answers == cur.answers)
    decreases |items|
  {
    if items != [] && !Oversized(size, Push(cur, items[0])) {
      assert forall i :: 0 <= i < |items[1..]| ==> items[1..][i] == items[i + 1];
      FillStarts(size, base, Push(cur, items[0]), items[1..]);
    }
  }

  lemma {:induction false} FillsUp(size: Message -> nat, base: Message, cur: Message, items: seq<Item>)
    requires Bare(base) == base && Ordered(items) && (cur.additionals != [] ==> OnlyAdditionals(items))
    ensures EachFull(size, Fill(size, base, cur, items))
    decreases |items|
  {
    if items != [] {
      var x, rest := items[0], items[1..];
      assert forall i :: 0 <= i < |rest| ==> rest[i] == items[i + 1];
      if Oversized(size, Push(cur, x)) {
        var later := Fill(size, base, Push(base, x), rest);
        FillsUp(size, base, Push(base, x), rest);
        FillStarts(size, base, Push(base, x), rest);
        assert FirstItem(later[0]) == x;
      } else {
        FillsUp(size, base, Push(cur, x), rest);
      }
    }
  }

  /** No packet is closed too early: what the next one starts with would have made it longer than 1400 bytes;
      and a response that fits goes out whole. */
  lemma {:induction false} PacketsAreFull(m: Message)
    requires m.authorities == []
    ensures EachFull(Size, Parts(m)) && (Size(m) <= 1400 ==> Parts(m) == [m])
  {
    if Size(m) > 1400 {
      ItemsFacts(m);
      FillsUp(Size, Bare(m), Bare(m), Tagged(m.answers, false) + Tagged(m.additionals, true));
    }
  }

  lemma {:induction false} PartsFit(size: Message -> nat, base: Message, cur: Message, items: seq<Item>)
    requires MessageFits(base) && MessageFits(cur) && Bare(base) == base && Count(cur) + |items| < 0x1_0000
    requires forall i :: 0 <= i < |items| ==> RecordFits(items[i].record)
    ensures forall i :: 0 <= i < |Fill(size, base, cur, items)| ==> MessageFits(Fill(size, base, cur, items)[i])
    decreases |items|
  {
    if items != [] {
      var x, rest := items[0], items[1..];
      assert forall i :: 0 <= i < |rest| ==> rest[i] == items[i + 1];
      PushFits(cur, x);
      PushFits(base, x);
      PartsFit(size, base, Push(cur, x), rest);
      PartsFit(size, base, Push(base, x), rest);
    }
  }

  lemma {:induction false} PushFits(m: Message, x: Item)
    requires MessageFits(m) && RecordFits(x.record) && Count(m) + 1 < 0x1_0000
    ensures MessageFits(Push(m, x))
  {
  }

  lemma {:induction false} SerializeAllAt(ms: seq<Message>)
    ensures |SerializeAll(ms)| == |ms| && forall i :: 0 <= i < |ms| ==> SerializeAll(ms)[i] == Serialize(ms[i])
  {
    if ms != [] { SerializeAllAt(ms[1..]); }
  }

  // ---- The loop --------------------------------------------------------------------------------

  /** Packets out plus packets to come. */
  ghost predicate Pending(goal: seq<seq<byte>>, packets: seq<seq<byte>>, base: Message, cur: Message, items: seq<Item>) {
    goal == packets + SerializeAll(Fill(Size, base, cur, items))
  }

  lemma {:induction false} PendingStep(goal: seq<seq<byte>>, packets: seq<seq<byte>>, base: Message, cur: Message,
                                       items: seq<Item>)
    requires Pending(goal, packets, base, cur, items) && items != []
    ensures var next := Push(cur, items[0]);
      if Oversized(Size, next) then Pending(goal, packets + [Serialize(cur)], base, Push(base, items[0]), items[1..])
      else Pending(goal, packets, base, next, items[1..])
  {
    if Oversized(Size, Push(cur, items[0])) {
      var later := Fill(Size, base, Push(base, items[0]), items[1..]);
      assert SerializeAll([cur] + later) == [Serialize(cur)] + SerializeAll(later);
      assert packets + ([Serialize(cur)] + SerializeAll(later)) == packets + [Serialize(cur)] + SerializeAll(later);
    }
  }

  lemma {:induction false} PendingEnd(goal: seq<seq<byte>>, packets: seq<seq<byte>>, base: Message, cur: Message)
    requires Pending(goal, packets, base, cur, [])
    ensures goal == if Count(cur) == 0 then packets else packets + [Serialize(cur)]
  {
    assert Fill(Size, base, cur, []) == if Count(cur) == 0 then [] else [cur];
    assert [cur][1..] == [];
    assert SerializeAll([cur]) == [Serialize(cur)] + SerializeAll([]);
    assert SerializeAll([]) == [];
    assert packets + [] == packets;
  }

  /** Adds one item to the packet being filled, closing that packet first if the item does not fit. */
  method Place(packets: seq<seq<byte>>, base: Message, cur: Message, x: Item)
    returns (packets': seq<seq<byte>>, cur': Message)
    ensures if Oversized(Size, Push(cur, x)) then packets' == packets + [Serialize(cur)] && cur' == Push(base, x)
            else packets' == packets && cur' == Push(cur, x)
  {
    packets', cur' := packets, Push(cur, x);
    if Count(cur') > 1 {
      var bytes := DnsCodec.SerializeMessage(cur');
      if |bytes| > MAX_PACKET {
        var full := DnsCodec.SerializeMessage(cur);
        packets', cur' := packets + [full], Push(base, x);
      }
    }
  }

  /** What is left at the end goes out as the last packet. */
  method CloseLast(packets: seq<seq<byte>>, base: Message, cur: Message, ghost goal: seq<seq<byte>>) returns (all: seq<seq<byte>>)
    requires Pending(goal, packets, base, cur, [])
    ensures all == goal
  {
    PendingEnd(goal, packets, base, cur);
    if Count(cur) == 0 { return packets; }
    var last := DnsCodec.SerializeMessage(cur);
    all := packets + [last];
  }

  method PlaceAll(base: Message, items: seq<Item>) returns (packets: seq<seq<byte>>)
    ensures packets == SerializeAll(Fill(Size, base, base, items))
  {
    packets := [];
    var cur := base;
    ghost var goal, rest := SerializeAll(Fill(Size, base, base, items)), items;
    for i := 0 to |items|
      invariant rest == items[i..] && Pending(goal, packets, base, cur, rest)
    {
      PendingStep(goal, packets, base, cur, rest);
      packets, cur := Place(packets, base, cur, items[i]);
      rest := rest[1..];
    }
    packets := CloseLast(packets, base, cur, goal);
  }

  method ToPackets(m: Message) returns (packets: seq<seq<byte>>)
    ensures packets == SerializeAll(Parts(m))
  {
    var whole := DnsCodec.SerializeMessage(m);
    if |whole| <= MAX_PACKET || m.authorities != [] {
      PendingWhole(m);
      packets := [whole];
    } else {
      packets := PlaceAll(Bare(m), Tagged(m.answers, false) + Tagged(m.additionals, true));
    }
  }

  lemma {:induction false} PendingWhole(m: Message)
    requires Size(m) <= MAX_PACKET || m.authorities != []
    ensures SerializeAll(Parts(m)) == [Serialize(m)]
  {
    assert [m][1..] == [];
  }

  /** A receiver that parses every packet gets every record of the response. */
  lemma {:induction false} PacketsArrive(m: Message)
    requires MessageFits(m) && Count(m) > 0 && m.authorities == [] && Count(m) < 0x1_0000
    ensures var ms, packets := Parts(m), SerializeAll(Parts(m));
      |packets| == |ms| && Gather(ms, false) == m.answers && Gather(ms, true) == m.additionals &&
      forall i :: 0 <= i < |ms| ==> Parse(packets[i]).Some? && MessageArrives(Parse(packets[i]).value, ms[i])
  {
    var ms := Parts(m);
    SplitConserves(m);
    SerializeAllAt(ms);
    PartsOfFit(m);
    forall i | 0 <= i < |ms| ensures Parse(Serialize(ms[i])).Some? && MessageArrives(Parse(Serialize(ms[i])).value, ms[i]) {
      RoundTrip(ms[i]);
    }
  }

  lemma {:induction false} PartsOfFit(m: Message)
    requires MessageFits(m) && m.authorities == [] && Count(m) < 0x1_0000
    ensures forall i :: 0 <= i < |Parts(m)| ==> MessageFits(Parts(m)[i])
  {
    TaggedRecords(m.answers, false);
    TaggedRecords(m.additionals, true);
    PartsFit(Size, Bare(m), Bare(m), Tagged(m.answers, false) + Tagged(m.additionals, true));
  }

  lemma {:induction false} TaggedRecords(rs: seq<Record>, additional: bool)
    ensures |Tagged(rs, additional)| == |rs| && forall i :: 0 <= i < |rs| ==> Tagged(rs, additional)[i].record == rs[i]
  {
    if rs != [] { TaggedRecords(rs[1..], additional); }
  }
}

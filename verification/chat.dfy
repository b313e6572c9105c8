/**
 * The chat broadcaster of cmd/chat/chat/chat.go:9-25 and 77-107. The Go
 * aggregator is a goroutine that handles one event at a time from its
 * channels; here each event is a method: `Register`, `Unregister`, `Inbound`
 * and `Tick`.
 *
 * Clients are keyed by an id that the broadcaster hands out, standing for the
 * freshly allocated `*client` pointer the Go code uses as its map key. Text
 * frames written to a client's WebSocket are appended to `sent[id]`; the ghost
 * map `sentRevisions` records, for each frame, the position in the message
 * history of the message it carried, which is how the delivery order is stated.
 */
module Broadcast {
  import opened Ring

  /** The size of the aggregator's message log (chat.go:79). */
  const LogCapacity: nat := 20

  function Max(a: int, b: int): int
  {
    if a < b then b else a
  }

  /** Positions `from`, `from + 1`, ..., `from + count - 1`. */
  function Range(from: nat, count: nat): (r: seq<nat>)
    ensures |r| == count
    ensures forall t :: 0 <= t < count ==> r[t] == from + t
  {
    seq(count, t requires 0 <= t => from + t)
  }

  /** The frames written to one client carry messages of `history`, at
      strictly increasing positions below `bound`: each message at most once,
      in the order it was added. */
  ghost predicate DeliveredInOrder(frames: seq<string>, positions: seq<nat>, history: seq<string>, bound: nat)
  {
    && |frames| == |positions|
    && bound <= |history|
    && (forall t :: 0 <= t < |positions| ==> positions[t] < bound && frames[t] == history[positions[t]])
    && (forall s, t :: 0 <= s < t < |positions| ==> positions[s] < positions[t])
  }

  /** Delivery stays in order when the history grows or the bound is raised. */
  lemma {:induction false} DeliveredGrows(frames: seq<string>, positions: seq<nat>, history: seq<string>, bound: nat,
                       history': seq<string>, bound': nat)
    requires DeliveredInOrder(frames, positions, history, bound)
    requires history <= history' && bound <= bound' <= |history'|
    ensures DeliveredInOrder(frames, positions, history', bound')
  {
  }

  /** Appending a replay of the messages from position `from` on, where `from`
      is at least the client's cursor, keeps delivery in order up to the end of
      the history. */
  lemma {:induction false} DeliverWindow(frames: seq<string>, positions: seq<nat>, history: seq<string>, cursor: nat,
                      from: nat, texts: seq<string>)
    requires DeliveredInOrder(frames, positions, history, cursor)
    requires cursor <= from <= |history| && texts <= history[from..]
    ensures DeliveredInOrder(frames + texts, positions + Range(from, |texts|), history, |history|)
  {
    var frames', positions' := frames + texts, positions + Range(from, |texts|);
    forall t | 0 <= t < |positions'|
      ensures positions'[t] < |history| && frames'[t] == history[positions'[t]]
    {
      if t >= |positions| {
        assert frames'[t] == texts[t - |positions|] == history[from..][t - |positions|];
      }
    }
  }

  /** What a tick sends to a client whose cursor is `cursor` when the log has
      seen `history`: nothing when it is up to date, otherwise the texts
      `forEach(revision - cursor)` calls back with (chat.go:86-92), read from
      the `LogCapacity` slots of the log. This is the newest part of what the
      client has not seen, at most `LogCapacity` messages of it, cut short at
      the first empty message. */
  function Pending(history: seq<string>, cursor: nat): (texts: seq<string>)
    requires cursor <= |history|
    ensures cursor == |history| ==> texts == []
    ensures var window := history[Max(cursor, |history| - LogCapacity)..];
      && texts <= window
      && (texts == window <==> "" !in window)
  {
    if |history| - cursor > 0 then
      var capacity := LogCapacity;
      var visits := Replay(Fill(history, capacity), |history| % capacity, |history| - cursor);
      ReplayWindow(history, capacity, cursor);
      var n := Clamp(|history| - cursor, capacity);
      assert |history| - n == Max(cursor, |history| - capacity);
      Texts(visits)
    else
      []
  }

  /** A tick writes no empty frame, and when it writes fewer texts than the
      window holds it has stopped exactly at the window's first empty message
      (the `break` of chat.go:69-71): `Pending` is the window's messages up to
      the first empty one. */
  lemma {:induction false} PendingStopsAtEmpty(history: seq<string>, cursor: nat)
    requires cursor <= |history|
    ensures var texts := Pending(history, cursor);
      var window := history[Max(cursor, |history| - LogCapacity)..];
      && "" !in texts
      && (|texts| < |window| ==> window[|texts|] == "")
  {
    if |history| - cursor > 0 {
      ReplayStopsAtEmpty(history, LogCapacity, cursor);
      var n := Clamp(|history| - cursor, LogCapacity);
      assert |history| - n == Max(cursor, |history| - LogCapacity);
    }
  }

  /** The `Chat` value of chat.go:9-14 together with the message log its
      aggregator owns (chat.go:79). */
  class Chat {
    const msgs: Messages
    /** Registered clients and the revision each has been sent up to. */
    var clients: map<nat, nat>
    /** The text frames written to each client's connection, in order. */
    var sent: map<nat, seq<string>>
    ghost var sentRevisions: map<nat, seq<nat>>
    /** The next client id to hand out. */
    var nextId: nat

    ghost predicate Valid()
      reads this, msgs, msgs.arr
    {
      && msgs.Valid()
      && msgs.arr.Length == LogCapacity
      && clients.Keys <= sent.Keys
      && sent.Keys == sentRevisions.Keys
      && (forall c :: c in sent ==> c < nextId)
      && (forall c :: c in clients ==> clients[c] <= msgs.revision)
      && (forall c :: c in sent ==>
            DeliveredInOrder(sent[c], sentRevisions[c], msgs.history,
                             if c in clients then clients[c] else msgs.revision))
    }

    /** `MakeChat` (chat.go:16-25) and `makeMessages(20)` (chat.go:79): no
        clients and an empty log. */
    constructor ()
      ensures Valid() && fresh(msgs) && fresh(msgs.arr)
      ensures clients == map[] && sent == map[]
      ensures msgs.revision == 0 && msgs.history == []
    {
      msgs := new Messages(LogCapacity);
      clients := map[];
      sent := map[];
      sentRevisions := map[];
      nextId := 0;
    }

    /** A `Register` event (chat.go:96-102): a new client with revision 0, so
        its first tick replays the retained backlog. */
    method Register() returns (id: nat)
      requires Valid()
      modifies this
      ensures Valid()
      ensures id !in old(sent) && id !in old(clients)
      ensures clients == old(clients)[id := 0]
      ensures sent == old(sent)[id := []]
    {
      id := nextId;
      nextId := nextId + 1;
      clients := clients[id := 0];
      sent := sent[id := []];
      sentRevisions := sentRevisions[id := []];
    }

    /** An `unregister` event (chat.go:103-104): the client leaves the map; an
        absent client leaves it unchanged. */
    method Unregister(id: nat)
      requires Valid()
      modifies this
      ensures Valid()
      ensures clients == old(clients) - {id}
      ensures sent == old(sent)
    {
      if id in clients {
        DeliveredGrows(sent[id], sentRevisions[id], msgs.history, clients[id], msgs.history, msgs.revision);
      }
      clients := clients - {id};
    }

    /** An `inbound` event (chat.go:82-83): the text is added to the log;
        nothing else changes. */
    method Inbound(text: string)
      requires Valid()
      modifies msgs, msgs.arr
      ensures Valid()
      ensures msgs.history == old(msgs.history) + [text]
      ensures msgs.revision == old(msgs.revision) + 1
    {
      ghost var before := msgs.history;
      msgs.Add(text);
      forall c | c in sent
        ensures DeliveredInOrder(sent[c], sentRevisions[c], msgs.history,
                                 if c in clients then clients[c] else msgs.revision)
      {
        DeliveredGrows(sent[c], sentRevisions[c], before,
                       if c in clients then clients[c] else |before|, msgs.history,
                       if c in clients then clients[c] else msgs.revision);
      }
    }

    /** One round of the tick's loop body (chat.go:86-94) for client `c`. */
    method Deliver(c: nat)
      requires Valid() && c in clients
      modifies this
      ensures Valid()
      ensures clients == old(clients)[c := msgs.revision]
      ensures sent == old(sent)[c := old(sent)[c] + Pending(msgs.history, old(clients)[c])]
    {
      ghost var p := Pending(msgs.history, clients[c]);
      var pending := msgs.revision - clients[c];
      if pending > 0 {
        var visits := msgs.ForEach(pending);
        var texts := Texts(visits);
        assert texts == p;
        ghost var from := Max(clients[c], msgs.revision - LogCapacity);
        DeliverWindow(sent[c], sentRevisions[c], msgs.history, clients[c], from, texts);
        sent := sent[c := sent[c] + texts];
        sentRevisions := sentRevisions[c := sentRevisions[c] + Range(from, |texts|)];
        clients := clients[c := msgs.revision];
      } else {
        assert sent[c] + p == sent[c];
        assert sent == old(sent)[c := old(sent)[c] + p];
      }
      assert p == Pending(msgs.history, old(clients)[c]);
    }

    /** A tick (chat.go:84-95): every client behind the log's revision is sent
        what `Pending` says and its cursor moves to the revision; clients that
        are up to date are sent nothing. */
    method Tick()
      requires Valid()
      modifies this
      ensures Valid()
      ensures clients == map c | c in old(clients) :: msgs.revision
      ensures sent == map c | c in old(sent) ::
        if c in old(clients) then old(sent)[c] + Pending(msgs.history, old(clients)[c]) else old(sent)[c]
    {
      ghost var cursors, sent0, history := clients, sent, msgs.history;
      var todo := clients.Keys;
      while todo != {}
        invariant Valid() && msgs.history == history
        invariant TickProgress(clients, sent, cursors, sent0, history, todo)
        decreases todo
      {
        var c :| c in todo;
        ghost var clients0, sent1 := clients, sent;
        Deliver(c);
        TickStep(clients0, sent1, cursors, sent0, history, todo, c, clients, sent);
        todo := todo - {c};
      }
      TickDone(clients, sent, cursors, sent0, history);
    }
  }

  /** Where a tick stands after visiting every client outside `todo`: those
      have their cursor at the end of `history` and their pending texts
      appended; the others are as they were. */
  ghost predicate TickProgress(clients: map<nat, nat>, sent: map<nat, seq<string>>,
                               cursors: map<nat, nat>, sent0: map<nat, seq<string>>,
                               history: seq<string>, todo: set<nat>)
  {
    && clients.Keys == cursors.Keys && sent.Keys == sent0.Keys && cursors.Keys <= sent0.Keys
    && todo <= cursors.Keys
    && (forall d :: d in cursors ==> cursors[d] <= |history|)
    && (forall d :: d in clients ==> clients[d] == if d in todo then cursors[d] else |history|)
    && (forall d :: d in sent ==>
          sent[d] == if d in cursors && d !in todo then sent0[d] + Pending(history, cursors[d]) else sent0[d])
  }

  /** Delivering to one more client of `todo` advances the tick. */
  lemma {:induction false} TickStep(clients: map<nat, nat>, sent: map<nat, seq<string>>,
                 cursors: map<nat, nat>, sent0: map<nat, seq<string>>,
                 history: seq<string>, todo: set<nat>,
                 c: nat, clients': map<nat, nat>, sent': map<nat, seq<string>>)
    requires TickProgress(clients, sent, cursors, sent0, history, todo) && c in todo
    requires clients' == clients[c := |history|]
    requires sent' == sent[c := sent[c] + Pending(history, clients[c])]
    ensures TickProgress(clients', sent', cursors, sent0, history, todo - {c})
  {
  }

  /** A tick that has visited every client has moved every cursor to the end
      of the history and sent each client its pending texts. */
  lemma {:induction false} TickDone(clients: map<nat, nat>, sent: map<nat, seq<string>>,
                 cursors: map<nat, nat>, sent0: map<nat, seq<string>>, history: seq<string>)
    requires TickProgress(clients, sent, cursors, sent0, history, {})
    ensures clients == map d | d in cursors :: |history|
    ensures sent == map d | d in sent0 ::
      if d in cursors then sent0[d] + Pending(history, cursors[d]) else sent0[d]
  {
  }
}

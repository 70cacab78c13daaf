/**
 * The order in which the backlog is delivered: over runs whose dates do not go back, the accepted publishes follow the
 * order in which the records were stored, and only resets repeat any.
 */
module Delivery {
  import opened Base
  import opened FsFrame
  import opened FsAbs
  import opened StoreForward
  import ComDate

  /** A record is not dated before the last one stored. */
  ghost predicate Dated(w: World, e: Event) {
    match e
    case AppendEvent(date, record, io) =>
      w.fs.mounted && Writable(date, record) && w.h.stored != [] ==>
        ComDate.Key(date) >= w.h.stored[|w.h.stored| - 1].file
    case _ => true
  }

  ghost predicate AllDated(w: World, es: seq<Event>)
    requires Allowed(w, es)
    decreases |es|
  {
    es == [] || (Dated(w, es[0]) && AllDated(Step(w, es[0]), es[1..]))
  }

  // ---------------------------------------------------------------------------------------------
  // The trace of the stream
  // ---------------------------------------------------------------------------------------------

  /** The index the next new record would have. */
  function Next(h: History): nat {
    if h.sent == [] then 0 else h.sent[|h.sent| - 1] + 1
  }

  ghost predicate Ordered(stored: seq<Item>) {
    forall j, k :: 0 <= j < k < |stored| ==> stored[j].Precedes(stored[k])
  }

  /** The records sent, in the order of the publishes: it starts with the first and never jumps ahead. */
  ghost predicate SentOk(sent: seq<nat>, n: nat) {
    && (sent != [] ==> sent[0] == 0)
    && (forall i :: 0 < i < |sent| ==> sent[i] <= sent[i - 1] + 1)
    && (forall i :: 0 <= i < |sent| ==> sent[i] < n)
  }

  /** The publishes that carried a stored record, in their order, and which record each carried. */
  ghost predicate Traced(h: History) {
    && |h.at| == |h.sent| && SentOk(h.sent, |h.stored|)
    && (forall i, j :: 0 <= i < j < |h.at| ==> h.at[i] < h.at[j])
    && (forall i :: 0 <= i < |h.at| ==> h.at[i] < |h.accepted| && h.accepted[h.at[i]] == h.stored[h.sent[i]])
    && (forall j :: 0 <= j < |h.accepted| && j !in h.at ==> Elsewhere(h.stored, h.accepted[j]))
  }

  predicate Elsewhere(stored: seq<Item>, i: Item) {
    forall k :: 0 <= k < |stored| ==> stored[k].file != i.file || stored[k].offset != i.offset
  }

  /** What was published lies within its file, or its file has been left behind. */
  predicate Within(fs: Fs, i: Item) {
    if i.file in fs.card then i.offset < |fs.card[i.file]| else Left(fs, i.file)
  }

  ghost predicate Placed(w: World) {
    && (w.h.accepted != [] ==> w.fs.cursor.Some? || w.fs.fee.Some?)
    && forall j :: 0 <= j < |w.h.accepted| ==> Within(w.fs, w.h.accepted[j])
  }

  /** No cursor is past a record that is still to be sent for the first or another time. */
  ghost predicate Ahead(h: History, c: Cursor) {
    forall k :: Next(h) <= k < |h.stored| ==> !h.stored[k].Before(c)
  }

  predicate Behind(i: Item, c: Cursor) {
    i.file < c.file || (i.file == c.file && i.End() <= c.offset)
  }

  /** Since the last send or reset the cursor in memory is past everything sent. */
  ghost predicate PastSent(w: World, c: Cursor) {
    forall k: nat :: k < Next(w.h) && k < |w.h.stored| ==>
      Behind(w.h.stored[k], c) || (w.phase.Accepted? && IsAt(w.h.stored, k, c))
  }

  /** How often the stream does not simply go on to the next record. */
  function Restarts(sent: seq<nat>): nat {
    if |sent| <= 1 then 0
    else Restarts(sent[..|sent| - 1]) + if sent[|sent| - 1] == sent[|sent| - 2] + 1 then 0 else 1
  }

  ghost predicate CursorInOrder(w: World, c: Cursor) {
    && Ahead(w.h, c)
    && (w.phase.Accepted? ==> forall k: nat :: IsAt(w.h.stored, k, c) ==> k < Next(w.h))
    && (!w.h.resumed ==> PastSent(w, c))
  }

  ghost predicate Sequenced(w: World) {
    && Ordered(w.h.stored) && Traced(w.h) && Placed(w)
    && Restarts(w.h.sent) + (if w.h.resumed then 1 else 0) <= w.h.resets
    && (w.fs.cursor.Some? ==> CursorInOrder(w, w.fs.cursor.value))
    && (w.fs.fee.Some? ==> Ahead(w.h, w.fs.fee.value))
  }

  // ---------------------------------------------------------------------------------------------
  // Moving the cursor
  // ---------------------------------------------------------------------------------------------

  lemma WithinStays(fs: Fs, gs: Fs, i: Item)
    requires Within(fs, i) && gs.card == fs.card && fs.cursor.Some? && gs.cursor.Some?
    requires NotAhead(fs.cursor.value, gs.cursor.value) && (gs.fee == fs.fee || gs.fee == gs.cursor)
    ensures Within(gs, i)
  {}

  /** The cursor moves forward past nothing but what an accepted publish at it carried, and is perhaps stored. */
  lemma MoveKeepsSequenced(w: World, v: World)
    requires Sequenced(w) && v.h == w.h && v.fs.card == w.fs.card && !v.phase.Accepted?
    requires w.fs.cursor.Some? && v.fs.cursor.Some? && NotAhead(w.fs.cursor.value, v.fs.cursor.value)
    requires v.fs.fee == w.fs.fee || v.fs.fee == v.fs.cursor
    requires forall k :: 0 <= k < |w.h.stored| ==> MovesPast(w, v.fs.cursor.value, k)
    ensures Sequenced(v)
  {
    hide Ordered, Traced, Within, Restarts, Next;
    var c, d := w.fs.cursor.value, v.fs.cursor.value;
    forall j | 0 <= j < |w.h.accepted|
      ensures Within(v.fs, w.h.accepted[j])
    {
      WithinStays(w.fs, v.fs, w.h.accepted[j]);
    }
    forall k: nat | Next(w.h) <= k < |w.h.stored|
      ensures !w.h.stored[k].Before(d)
    {
      assert MovesPast(w, d, k);
    }
    forall k: nat | k < Next(w.h) && k < |w.h.stored| && !w.h.resumed
      ensures Behind(w.h.stored[k], d)
    {
      assert MovesPast(w, d, k);
    }
  }

  /** From the present cursor to d the record is passed only when an accepted publish carried it, and then wholly. */
  ghost predicate MovesPast(w: World, d: Cursor, k: nat)
    requires w.fs.cursor.Some? && k < |w.h.stored|
  {
    var i, c := w.h.stored[k], w.fs.cursor.value;
    && (i.Before(d) ==> i.Before(c) || (w.phase.Accepted? && IsAt(w.h.stored, k, c)))
    && (w.phase.Accepted? && IsAt(w.h.stored, k, c) ==> Behind(i, d))
  }

  lemma AdvanceKeepsSequenced(w: World, ok: bool)
    requires Inv(w) && Sequenced(w) && (w.phase.Accepted? || w.phase.Broken?)
    ensures Sequenced(w.(fs := Advanced(w.fs, ok).0, phase := Idle))
  {
    hide ItemsOk, CursorsOk, Sequenced;
    var v := w.(fs := Advanced(w.fs, ok).0, phase := Idle);
    forall k | 0 <= k < |w.h.stored|
      ensures MovesPast(w, v.fs.cursor.value, k)
    {
      AdvancePasses(w, k);
      assert Spanned(w.h.stored[k], w.fs.cursor.value, w.fs.pending);
    }
    MoveKeepsSequenced(w, v);
  }

  /** A read never moves the cursor back, and passes no record. */
  lemma ReadPasses(w: World, io: ReadIo, k: nat)
    requires Inv(w) && w.fs.cursor.Some? && k < |w.h.stored|
    ensures var v := ReadStep(w, io);
            && v.h == w.h && v.fs.card == w.fs.card && v.fs.cursor.Some?
            && (w.h.stored[k].Before(v.fs.cursor.value) ==> w.h.stored[k].Before(w.fs.cursor.value))
  {
    hide SpanOk, PhaseOk, Judge, NextLog, HeaderSkipped, ItemsOk, Clear;
    var c := w.fs.cursor.value;
    var d := HeaderSkipped(w.fs.card, c, io.peekOk);
    HeaderSkipInFile(w.fs.card, c, io.peekOk);
    HeaderSkipPasses(w, c, io.peekOk, k);
    var next := NextLog(w.fs.card, d.file);
    if next.Some? && d.offset == |w.fs.card[d.file]| {
      var u := w.(fs := w.fs.(cursor := Some(d)));
      LeftItems(w, u);
      CrossingPasses(u, d, next.value, k);
    }
  }

  /** Moving the cursor within its file or forward keeps the stored records accounted for. */
  lemma LeftItems(w: World, u: World)
    requires ItemsOk(w) && w.fs.cursor.Some? && u.h == w.h && u.fs == w.fs.(cursor := u.fs.cursor) && u.fs.cursor.Some?
    requires u.fs.cursor.value.file == w.fs.cursor.value.file
    ensures ItemsOk(u)
  {
    hide OnCard, Clean, Apart;
    assert forall k :: 0 <= k < |w.h.stored| ==> ItemOk(w.fs, w.h.stored[k]) ==> ItemOk(u.fs, w.h.stored[k]);
  }

  lemma HeaderSkipPasses(w: World, c: Cursor, peekOk: bool, k: nat)
    requires ItemsOk(w) && c.file in w.fs.card && c.offset <= |w.fs.card[c.file]| && k < |w.h.stored|
    ensures w.h.stored[k].Before(HeaderSkipped(w.fs.card, c, peekOk)) ==> w.h.stored[k].Before(c)
  {
    hide HeaderSkipped, ItemsOk;
    HeaderSkipInFile(w.fs.card, c, peekOk);
    if w.h.stored[k].file == c.file { HeaderSkipIsClear(w, c, k, peekOk); }
  }

  lemma ReadMoves(w: World, io: ReadIo)
    requires Inv(w) && w.fs.cursor.Some?
    ensures var v := ReadStep(w, io);
            && v.h == w.h && v.fs.card == w.fs.card && v.fs.cursor.Some? && !v.phase.Accepted?
            && NotAhead(w.fs.cursor.value, v.fs.cursor.value) && (v.fs.fee == w.fs.fee || v.fs.fee == v.fs.cursor)
  {
    hide ItemsOk, SpanOk, PhaseOk, Judge, NextLog, HeaderSkipped;
    HeaderSkipInFile(w.fs.card, w.fs.cursor.value, io.peekOk);
  }

  lemma ReadKeepsSequenced(w: World, io: ReadIo)
    requires Inv(w) && w.phase.Idle? && Sequenced(w)
    ensures Sequenced(ReadStep(w, io))
  {
    hide Inv, Sequenced, ReadStep;
    var v := ReadStep(w, io);
    if w.fs.cursor.Some? {
      ReadMoves(w, io);
      forall k | 0 <= k < |w.h.stored|
        ensures MovesPast(w, v.fs.cursor.value, k)
      {
        ReadPasses(w, io, k);
      }
      MoveKeepsSequenced(w, v);
    } else {
      ReadOfNothing(w, io);
    }
  }

  lemma ReadOfNothing(w: World, io: ReadIo)
    requires w.fs.cursor.None? && Sequenced(w)
    ensures Sequenced(ReadStep(w, io))
  {
    hide Ordered, Traced, Ahead, Restarts;
    assert forall j :: 0 <= j < |w.h.accepted| ==>
      Within(w.fs, w.h.accepted[j]) ==> Within(w.fs.(pending := 0), w.h.accepted[j]);
  }

  // ---------------------------------------------------------------------------------------------
  // Publishing
  // ---------------------------------------------------------------------------------------------

  /** Of the stored records, those listed before the one at the cursor lie before it, and those after do not. */
  lemma AroundCursor(stored: seq<Item>, k: nat, c: Cursor)
    requires Ordered(stored) && IsAt(stored, k, c)
    ensures forall j :: 0 <= j < k ==> stored[j].Before(c) && Behind(stored[j], c)
    ensures forall j :: k < j < |stored| ==> !stored[j].Before(c) && !IsAt(stored, j, c)
  {
    forall j | 0 <= j < k
      ensures stored[j].Before(c) && Behind(stored[j], c)
    {
      assert stored[j].Precedes(stored[k]);
    }
    forall j | k < j < |stored|
      ensures !stored[j].Before(c) && !IsAt(stored, j, c)
    {
      assert stored[k].Precedes(stored[j]);
    }
  }

  /** The record at a cursor is the next one to send, or one sent before; since a reset, exactly the next. */
  lemma CursorIsNext(w: World, k: nat, c: Cursor)
    requires Ordered(w.h.stored) && IsAt(w.h.stored, k, c) && CursorInOrder(w, c) && !w.phase.Accepted?
    ensures k <= Next(w.h) && (!w.h.resumed ==> k == Next(w.h))
  {
    AroundCursor(w.h.stored, k, c);
    var n := Next(w.h);
    assert n < |w.h.stored| ==> !w.h.stored[n].Before(c);
    assert !w.h.resumed && k < n ==> Behind(w.h.stored[k], c);
  }

  lemma SentSnoc(sent: seq<nat>, n: nat, k: nat)
    requires SentOk(sent, n) && k < n && k <= (if sent == [] then 0 else sent[|sent| - 1] + 1)
    ensures SentOk(sent + [k], n)
    ensures Restarts(sent + [k]) == Restarts(sent) + if sent == [] || k == sent[|sent| - 1] + 1 then 0 else 1
  {
    hide Restarts;
    RestartsSnoc(sent, k);
    var s := sent + [k];
    forall i | 0 < i < |s|
      ensures s[i] <= s[i - 1] + 1
    {
      assert i < |sent| ==> sent[i] <= sent[i - 1] + 1;
    }
  }

  lemma RestartsSnoc(sent: seq<nat>, k: nat)
    ensures Restarts(sent + [k]) == Restarts(sent) + if sent == [] || k == sent[|sent| - 1] + 1 then 0 else 1
  {
    assert (sent + [k])[..|sent|] == sent;
  }

  lemma AtSnoc(at: seq<nat>, n: nat)
    requires forall i :: 0 <= i < |at| ==> at[i] < n
    ensures forall j :: 0 <= j < n + 1 && j !in at + [n] ==> j < n && j !in at
  {
    assert (at + [n])[|at|] == n;
    forall j | j in at
      ensures j in at + [n]
    {
      var i :| 0 <= i < |at| && at[i] == j;
      assert (at + [n])[i] == j;
    }
  }

  /** The history after a publish that carried record k. */
  lemma SendExtendsTrace(h: History, c: Cursor, text: string, k: nat, g: History)
    requires Traced(h) && IsAt(h.stored, k, c) && h.stored[k].text == text && k <= Next(h)
    requires g == h.(accepted := h.accepted + [Item(c.file, c.offset, text)], at := h.at + [|h.accepted|],
                     sent := h.sent + [k], resumed := false)
    ensures Traced(g) && Next(g) == k + 1
    ensures Restarts(g.sent) == Restarts(h.sent) + if h.sent == [] || k == Next(h) then 0 else 1
  {
    hide Elsewhere, SentOk, Restarts;
    SentSnoc(h.sent, |h.stored|, k);
    AtSnoc(h.at, |h.accepted|);
    assert h.stored[k] == Item(c.file, c.offset, text);
  }

  /** The history after a publish that carried no stored record. */
  lemma OtherExtendsTrace(h: History, c: Cursor, text: string)
    requires Traced(h) && forall k: nat :: !IsAt(h.stored, k, c)
    ensures Traced(h.(accepted := h.accepted + [Item(c.file, c.offset, text)]))
  {
    var i := Item(c.file, c.offset, text);
    assert Elsewhere(h.stored, i) by {
      forall k | 0 <= k < |h.stored|
        ensures h.stored[k].file != i.file || h.stored[k].offset != i.offset
      {
        assert !IsAt(h.stored, k, c);
      }
    }
  }

  lemma PublishedIsPlaced(w: World, text: string)
    requires Inv(w) && Placed(w) && w.phase.Holding? && w.fs.cursor.Some?
    ensures var c := w.fs.cursor.value;
            Placed(w.(phase := Accepted, h := w.h.(accepted := w.h.accepted + [Item(c.file, c.offset, text)])))
  {
    hide ItemsOk, CursorsOk;
  }

  lemma PublishKeepsSequenced(w: World)
    requires Inv(w) && Sequenced(w) && w.phase.Holding? && w.fs.cursor.Some?
    ensures Sequenced(w.(phase := Accepted, h := Sent(w.h, w.fs.cursor.value, w.phase.text)))
  {
    hide Traced, Within, Restarts, ItemsOk, CursorsOk, SpanOk;
    var c, text := w.fs.cursor.value, w.phase.text;
    var h := Sent(w.h, c, text);
    var v := w.(phase := Accepted, h := h);
    PublishedIsPlaced(w, text);
    if exists k: nat :: IsAt(w.h.stored, k, c) {
      var k: nat :| IsAt(w.h.stored, k, c) && h.sent == w.h.sent + [k];
      CursorIsNext(w, k, c);
      AroundCursor(w.h.stored, k, c);
      SendExtendsTrace(w.h, c, text, k, h);
      if w.fs.fee.Some? { FeeNotAhead(w, k); }
    } else {
      OtherExtendsTrace(w.h, c, text);
    }
  }

  lemma FeeNotAhead(w: World, k: nat)
    requires Inv(w) && w.fs.cursor.Some? && w.fs.fee.Some? && k < |w.h.stored|
    requires forall j :: k < j < |w.h.stored| ==> !w.h.stored[j].Before(w.fs.cursor.value)
    ensures forall j :: k < j < |w.h.stored| ==> !w.h.stored[j].Before(w.fs.fee.value)
  {
    hide ItemsOk, SpanOk, PhaseOk, Positioned;
    forall j | k < j < |w.h.stored|
      ensures !w.h.stored[j].Before(w.fs.fee.value)
    {
      assert !w.h.stored[j].Before(w.fs.cursor.value);
    }
  }

  // ---------------------------------------------------------------------------------------------
  // Appending, removing, resetting
  // ---------------------------------------------------------------------------------------------

  /** What an append leaves: files only grow, and at most one record is added, at the end of its file. */
  ghost predicate Added(w: World, v: World, file: nat) {
    && v.phase == w.phase
    && v.h == w.h.(stored := v.h.stored, okay := v.h.okay, glued := v.h.glued, torn := v.h.torn)
    && (v.h.stored == w.h.stored ||
        (exists i: Item :: v.h.stored == w.h.stored + [i] && i.file == file &&
                     (file in w.fs.card ==> i.offset >= |w.fs.card[file]|)))
    && (forall f :: f in w.fs.card ==> f in v.fs.card && |w.fs.card[f]| <= |v.fs.card[f]|)
    && (forall f :: f in v.fs.card && f != file ==> f in w.fs.card)
    && (if w.fs.cursor.Some? then v.fs.cursor == w.fs.cursor && v.fs.fee == w.fs.fee
        else (v.fs.cursor.None? && v.fs.fee == w.fs.fee) ||
             (v.fs.cursor == Some(Cursor(file, 0)) && (v.fs.fee == w.fs.fee || v.fs.fee == v.fs.cursor)))
  }

  lemma LineAdds(w: World, file: nat, text: string, io: AppendIo)
    ensures Added(w, LineStep(w, file, text, io), file)
  {
    hide LineOf, Clean, LineAligned;
    var v := LineStep(w, file, text, io);
    if v.h.stored != w.h.stored {
      var i := Item(file, |Content(w.fs.card, file)|, text);
      assert v.h.stored == w.h.stored + [i];
    }
  }

  lemma AppendAdds(w: World, date: string, record: string, io: AppendIo)
    requires w.fs.mounted && Writable(date, record)
    ensures Added(w, AppendStep(w, date, record, io), ComDate.Key(date))
  {
    hide HeaderLine, LineStep, LineAppended, LineLogged, ComDate.Key, TextOf;
    var file := ComDate.Key(date);
    var w1 := w.(fs := w.fs.(card := WithHeader(w.fs.card, file, io.header)));
    if file in w.fs.card || io.header.Done? {
      LineAdds(w1, file, TextOf(record), io);
      LineStepIs(w1, file, TextOf(record), io);
      assert AppendStep(w, date, record, io) == LineStep(w1, file, TextOf(record), io);
      if v: World :| v == LineStep(w1, file, TextOf(record), io) && v.h.stored != w.h.stored {
        var i: Item :| v.h.stored == w.h.stored + [i] && i.file == file &&
                       (file in w1.fs.card ==> i.offset >= |w1.fs.card[file]|);
        assert file in w.fs.card ==> i.offset >= |w.fs.card[file]|;
      }
    }
  }

  /** A record dated no earlier than the last one, at the end of its file, comes after all the others. */
  lemma NewIsLast(w: World, i: Item)
    requires Inv(w) && Reached(w, i.file) && Ordered(w.h.stored)
    requires w.h.stored != [] ==> i.file >= w.h.stored[|w.h.stored| - 1].file
    requires i.file in w.fs.card ==> i.offset >= |w.fs.card[i.file]|
    ensures Ordered(w.h.stored + [i])
  {
    hide CursorsOk, SpanOk, PhaseOk, Clean, LineOf, Apart;
    var n := |w.h.stored|;
    forall k | 0 <= k < n
      ensures w.h.stored[k].Precedes(i)
    {
      assert ItemOk(w.fs, w.h.stored[k]);
      assert k < n - 1 ==> w.h.stored[k].Precedes(w.h.stored[n - 1]);
    }
  }

  lemma NewIsElsewhere(w: World, i: Item, j: nat)
    requires Inv(w) && Reached(w, i.file) && Placed(w) && j < |w.h.accepted|
    requires i.file in w.fs.card ==> i.offset >= |w.fs.card[i.file]|
    requires w.fs.cursor.None? ==> i.file in w.fs.card || w.fs.fee.None?
    ensures i.file != w.h.accepted[j].file || i.offset != w.h.accepted[j].offset
  {
    hide ItemsOk, CursorsOk, SpanOk, PhaseOk;
    assert Within(w.fs, w.h.accepted[j]);
  }

  lemma AddedTrace(w: World, v: World, file: nat)
    requires Inv(w) && Traced(w.h) && Placed(w) && w.fs.mounted && Reached(w, file) && Added(w, v, file)
    ensures Traced(v.h)
  {
    hide ItemsOk, SpanOk, PhaseOk, Positioned, Placed, Reached;
    if v.h.stored != w.h.stored {
      var i: Item :| v.h.stored == w.h.stored + [i] && i.file == file &&
                     (file in w.fs.card ==> i.offset >= |w.fs.card[file]|);
      forall j | 0 <= j < |w.h.accepted| && j !in w.h.at
        ensures Elsewhere(v.h.stored, w.h.accepted[j])
      {
        NewIsElsewhere(w, i, j);
      }
    }
  }

  lemma AddedPlaces(w: World, v: World, file: nat)
    requires Inv(w) && Placed(w) && w.fs.mounted && Reached(w, file) && Added(w, v, file)
    ensures Placed(v)
  {
    hide ItemsOk, SpanOk, PhaseOk, Positioned;
    forall j | 0 <= j < |w.h.accepted|
      ensures Within(v.fs, w.h.accepted[j])
    {
      assert Within(w.fs, w.h.accepted[j]);
    }
  }

  lemma NothingSentYet(h: History)
    requires Traced(h) && h.stored == []
    ensures h.sent == [] && Next(h) == 0
  {
    assert forall i :: 0 <= i < |h.sent| ==> h.sent[i] < 0;
  }

  /** The new record is ahead of each cursor, and a new cursor starts before everything. */
  lemma AddedAhead(w: World, v: World, file: nat, c: Cursor)
    requires Traced(w.h) && Added(w, v, file) && Ahead(w.h, c)
    requires c.file < file ||
             (c.file == file && (c.offset == 0 || (file in w.fs.card && c.offset <= |w.fs.card[file]|)))
    ensures Ahead(v.h, c)
  {
    hide Traced;
  }

  lemma NextWithin(h: History)
    requires Traced(h)
    ensures Next(h) <= |h.stored|
  {}

  /** A new record does not start at a cursor whose record is being passed. */
  lemma AddedNotAtCursor(w: World, v: World, file: nat, k: nat)
    requires Inv(w) && w.phase.Accepted? && w.fs.cursor.Some? && Added(w, v, file)
    requires IsAt(v.h.stored, k, w.fs.cursor.value)
    ensures k < |w.h.stored|
  {
    hide ItemsOk, CursorsOk;
  }

  lemma IdleWithoutCursor(w: World)
    requires Inv(w) && w.fs.cursor.None?
    ensures w.phase.Idle?
  {}

  lemma AddedPastSent(w: World, v: World, file: nat, c: Cursor)
    requires Added(w, v, file) && Next(w.h) <= |w.h.stored| && PastSent(w, c)
    ensures PastSent(v, c)
  {
    hide Behind;
    NextStays(w, v, file);
    forall k: nat | k < Next(w.h) && k < |w.h.stored|
      ensures Behind(v.h.stored[k], c) || (v.phase.Accepted? && IsAt(v.h.stored, k, c))
    {
      assert v.h.stored[k] == w.h.stored[k];
      assert Behind(w.h.stored[k], c) || (w.phase.Accepted? && IsAt(w.h.stored, k, c));
    }
  }

  lemma AddedCursor(w: World, v: World, file: nat)
    requires Inv(w) && Sequenced(w) && w.fs.mounted && Reached(w, file) && Added(w, v, file) && v.fs.cursor.Some?
    ensures CursorInOrder(v, v.fs.cursor.value)
  {
    hide ItemsOk, SpanOk, Traced, Placed, Ordered, Restarts;
    NextWithin(w.h);
    if w.fs.cursor.Some? {
      var c := w.fs.cursor.value;
      AddedAhead(w, v, file, c);
      NextStays(w, v, file);
      forall k: nat | w.phase.Accepted? && IsAt(v.h.stored, k, c)
        ensures k < Next(w.h)
      {
        AddedNotAtCursor(w, v, file, k);
        assert IsAt(w.h.stored, k, c);
      }
      if !w.h.resumed { AddedPastSent(w, v, file, c); }
    } else {
      NothingSentYet(w.h);
      IdleWithoutCursor(w);
      NextStays(w, v, file);
      AddedAhead(w, v, file, Cursor(file, 0));
    }
  }

  lemma NextStays(w: World, v: World, file: nat)
    requires Added(w, v, file) && Next(w.h) <= |w.h.stored|
    ensures Next(v.h) == Next(w.h) && w.h.stored <= v.h.stored
  {}

  lemma AddedKeepsSequenced(w: World, v: World, file: nat)
    requires Inv(w) && Sequenced(w) && w.fs.mounted && Reached(w, file) && Added(w, v, file)
    requires w.h.stored != [] ==> file >= w.h.stored[|w.h.stored| - 1].file
    ensures Sequenced(v)
  {
    hide Traced, Placed, Restarts, Ahead, CursorInOrder, ItemsOk, SpanOk, PhaseOk, Ordered, Reached;
    AddedTrace(w, v, file);
    AddedPlaces(w, v, file);
    if v.h.stored != w.h.stored {
      var i: Item :| v.h.stored == w.h.stored + [i] && i.file == file &&
                     (file in w.fs.card ==> i.offset >= |w.fs.card[file]|);
      NewIsLast(w, i);
    }
    if v.fs.cursor.Some? { AddedCursor(w, v, file); }
    if v.fs.fee.Some? { AddedFee(w, v, file); }
  }

  lemma AddedFee(w: World, v: World, file: nat)
    requires Inv(w) && Sequenced(w) && w.fs.mounted && Reached(w, file) && Added(w, v, file) && v.fs.fee.Some?
    ensures Ahead(v.h, v.fs.fee.value)
  {
    hide ItemsOk, SpanOk, PhaseOk, Traced, Placed, Ordered, Restarts, CursorInOrder, Ahead;
    if w.fs.fee.Some? {
      AddedAhead(w, v, file, w.fs.fee.value);
    } else {
      AddedCursor(w, v, file);
      CursorIsAhead(v, v.fs.fee.value);
    }
  }

  lemma CursorIsAhead(w: World, c: Cursor)
    requires CursorInOrder(w, c)
    ensures Ahead(w.h, c)
  {}

  lemma AppendKeepsSequenced(w: World, e: Event)
    requires e.AppendEvent? && Inv(w) && Sequenced(w) && Fair(w, e) && Dated(w, e)
    ensures Sequenced(AppendStep(w, e.date, e.record, e.write))
  {
    hide Inv, Sequenced, Added, Reached, AppendStep, ComDate.Key;
    if w.fs.mounted && Writable(e.date, e.record) {
      AppendReaches(w, e.date, e.record, e.write);
      AppendAdds(w, e.date, e.record, e.write);
      AddedKeepsSequenced(w, AppendStep(w, e.date, e.record, e.write), ComDate.Key(e.date));
    } else {
      RefusedAppend(w, e.date, e.record, e.write);
    }
  }

  lemma RefusedAppend(w: World, date: string, record: string, io: AppendIo)
    requires !w.fs.mounted || !Writable(date, record)
    ensures AppendStep(w, date, record, io) == w
  {}

  lemma RemovalKeepsSequenced(w: World, io: SpaceIo)
    requires Inv(w) && Sequenced(w) && Fair(w, HousekeepEvent(io))
    ensures Sequenced(w.(fs := Housekept(w.fs, io)))
  {
    hide Inv, Traced, Ordered, Restarts, Ahead, Reclaimed, Left, Within;
    var v := w.(fs := Housekept(w.fs, io));
    if Reclaimed(w.fs, io).Some? {
      var f := Reclaimed(w.fs, io).value;
      ReclaimedIsBehind(w, io);
      ReclaimIsMounted(w.fs, io);
      if w.fs.fee.Some? { MountedFeeHasCursor(w); }
      forall j | 0 <= j < |w.h.accepted|
        ensures Within(v.fs, w.h.accepted[j])
      {
        WithinAfterRemoval(w.fs, f, w.h.accepted[j]);
      }
    }
  }

  lemma MountedFeeHasCursor(w: World)
    requires Inv(w) && w.fs.mounted && w.fs.fee.Some?
    ensures w.fs.cursor.Some?
  {}

  lemma WithinAfterRemoval(fs: Fs, f: nat, i: Item)
    requires Within(fs, i) && Left(fs, f)
    ensures Within(fs.(card := fs.card - {f}), i)
  {}

  lemma WithinAfterReset(w: World, mountOk: bool, readOk: bool, i: Item)
    requires Inv(w) && Within(w.fs, i) && Fair(w, ResetEvent(mountOk, readOk))
    requires w.fs.cursor.Some? || w.fs.fee.Some?
    ensures Within(Booted(w.fs, mountOk, readOk).0, i)
  {
    hide ItemsOk, SpanOk, PhaseOk, Positioned;
  }

  lemma ResetKeepsSequenced(w: World, mountOk: bool, readOk: bool)
    requires Inv(w) && Sequenced(w) && Fair(w, ResetEvent(mountOk, readOk))
    ensures Sequenced(ResetStep(w, mountOk, readOk))
  {
    hide Inv, Traced, Ordered, Restarts, Ahead, Within, PastSent;
    var v := ResetStep(w, mountOk, readOk);
    forall j | 0 <= j < |w.h.accepted|
      ensures Within(v.fs, w.h.accepted[j])
    {
      WithinAfterReset(w, mountOk, readOk, w.h.accepted[j]);
    }
    ResetKeepsTrace(w.h);
  }

  lemma ResetKeepsTrace(h: History)
    requires Traced(h)
    ensures Traced(h.(resets := h.resets + 1, resumed := true))
    ensures forall c :: Ahead(h, c) ==> Ahead(h.(resets := h.resets + 1, resumed := true), c)
  {}

  lemma RefusalKeepsSequenced(w: World)
    requires Sequenced(w) && !w.phase.Accepted?
    ensures Sequenced(w.(phase := Idle))
  {
    hide Traced, Ordered, Restarts, Ahead;
  }

  lemma StepKeepsSequenced(w: World, e: Event)
    requires Inv(w) && Sequenced(w) && Legal(w, e) && Fair(w, e) && Dated(w, e)
    ensures Sequenced(Step(w, e))
  {
    hide Inv, Sequenced, AppendStep, ReadStep, Sent, ResetStep, Housekept, Advanced;
    match e
    case AppendEvent(date, record, io) => AppendKeepsSequenced(w, e);
    case ReadEvent(io) => ReadKeepsSequenced(w, io);
    case PublishEvent(accepted) => if accepted { PublishKeepsSequenced(w); } else { RefusalKeepsSequenced(w); }
    case AdvanceEvent(ok) => AdvanceKeepsSequenced(w, ok);
    case SkipEvent(ok) => AdvanceKeepsSequenced(w, ok);
    case HousekeepEvent(io) => RemovalKeepsSequenced(w, io);
    case ResetEvent(mountOk, readOk) => ResetKeepsSequenced(w, mountOk, readOk);
  }

  // ---------------------------------------------------------------------------------------------
  // Whole runs
  // ---------------------------------------------------------------------------------------------

  lemma {:induction false} RunKeepsSequenced(w: World, es: seq<Event>)
    requires Inv(w) && Sequenced(w) && Allowed(w, es) && AllDated(w, es)
    ensures Sequenced(Run(w, es))
    decreases |es|
  {
    hide Inv, Sequenced, Step, Legal, Fair, Dated;
    if es != [] {
      StepKeepsInv(w, es[0]);
      StepKeepsSequenced(w, es[0]);
      RunKeepsSequenced(Step(w, es[0]), es[1..]);
    }
  }

  lemma FreshSequenced(card: Card)
    ensures Sequenced(Fresh(card))
  {}

  /**
   * The accepted publishes that carried stored records, taken in the order they were made, are consecutive runs of
   * the stored records: the first starts with the first record, each later one at or before where the previous one
   * stopped. Every other publish carried no stored record, and there are at most as many restarts as resets.
   */
  lemma DeliveryOrder(card: Card, es: seq<Event>)
    requires Allowed(Fresh(card), es) && AllDated(Fresh(card), es)
    ensures var h := Run(Fresh(card), es).h;
            && |h.at| == |h.sent|
            && (forall i, j :: 0 <= i < j < |h.at| ==> h.at[i] < h.at[j])
            && (forall i :: 0 <= i < |h.at| ==>
                  h.at[i] < |h.accepted| && h.sent[i] < |h.stored| && h.accepted[h.at[i]] == h.stored[h.sent[i]])
            && (forall j, k :: 0 <= j < |h.accepted| && j !in h.at && 0 <= k < |h.stored| ==>
                  h.accepted[j] != h.stored[k])
            && (h.sent != [] ==> h.sent[0] == 0)
            && (forall i :: 0 < i < |h.sent| ==> h.sent[i] == h.sent[i - 1] + 1 || h.sent[i] <= h.sent[i - 1])
            && Restarts(h.sent) <= h.resets
  {
    hide Inv, Run, Allowed, Fresh, AllDated, Placed, CursorInOrder, Ordered, Restarts;
    FreshInv(card);
    FreshSequenced(card);
    RunKeepsSequenced(Fresh(card), es);
    TraceSpeaks(Run(Fresh(card), es).h);
  }

  lemma TraceSpeaks(h: History)
    requires Traced(h)
    ensures forall j, k :: 0 <= j < |h.accepted| && j !in h.at && 0 <= k < |h.stored| ==> h.accepted[j] != h.stored[k]
  {
    hide SentOk;
    forall j, k | 0 <= j < |h.accepted| && j !in h.at && 0 <= k < |h.stored|
      ensures h.accepted[j] != h.stored[k]
    {
      assert Elsewhere(h.stored, h.accepted[j]);
    }
  }
}

/**
 * What the log of src/ecuabs/FsAbs does to a file on the card over a fair run: it appends to it, or removes it for
 * good. A backfill transfer that goes on meanwhile is therefore never disturbed.
 */
module Retention {
  import opened Base
  import opened FsFrame
  import opened FsAbs
  import opened StoreForward
  import ComDate
  import TelemSwc
  import Backfill
  import Fairness

  /** There is a cursor, in memory whenever the card is in use. */
  predicate Anchored(fs: Fs) {
    (fs.cursor.Some? || fs.fee.Some?) && (fs.mounted ==> fs.cursor.Some?)
  }

  /** As soon as a record has been stored there is one. */
  lemma StoredIsAnchored(w: World)
    requires Inv(w) && w.h.stored != []
    ensures Anchored(w.fs)
  {}

  /** Against an earlier card: its files have been appended to, or have gone and lie before every cursor. */
  ghost predicate Retained(card: Card, fs: Fs) {
    && Anchored(fs)
    && (forall f :: f in card && f in fs.card ==> card[f] <= fs.card[f])
    && (forall f :: f in card && f !in fs.card ==> Left(fs, f))
  }

  /** Both cursors only move forward. */
  predicate Forward(fs: Fs, gs: Fs) {
    && (gs.cursor.Some? ==> (fs.cursor.Some? && fs.cursor.value.file <= gs.cursor.value.file) ||
                            (fs.fee.Some? && fs.fee.value.file <= gs.cursor.value.file))
    && (gs.fee.Some? ==> (fs.cursor.Some? && fs.cursor.value.file <= gs.fee.value.file) ||
                         (fs.fee.Some? && fs.fee.value.file <= gs.fee.value.file))
  }

  lemma CursorsMove(card: Card, fs: Fs, gs: Fs)
    requires Retained(card, fs) && gs.card == fs.card && Anchored(gs) && Forward(fs, gs)
    ensures Retained(card, gs)
  {}

  /** An append under a cursor goes to a file at or after it. */
  lemma AppendRetains(card: Card, w: World, date: string, record: string, io: AppendIo)
    requires Retained(card, w.fs) && Fair(w, AppendEvent(date, record, io))
    ensures Retained(card, AppendStep(w, date, record, io).fs)
  {
    hide Left, AppendStep;
    TelemSwc.AppendGrows(w, date, record, io);
    AppendKeepsCursors(w, date, record, io);
    AppendTouchesOne(w, date, record, io);
    var v := AppendStep(w, date, record, io);
    forall f | f in card && f !in v.fs.card
      ensures Left(v.fs, f)
    {
      LeftIgnoresRest(w.fs, v.fs, f);
    }
    forall f | f in card && f in v.fs.card
      ensures card[f] <= v.fs.card[f]
    {
      if f !in w.fs.card { NotLeftAtCursor(w.fs, f); }
    }
  }

  lemma NotLeftAtCursor(fs: Fs, f: nat)
    requires Left(fs, f) && fs.cursor.Some?
    ensures f < fs.cursor.value.file
  {}

  lemma LeftIgnoresRest(fs: Fs, gs: Fs, f: nat)
    requires Left(fs, f) && gs.cursor == fs.cursor && gs.fee == fs.fee
    ensures Left(gs, f)
  {}

  lemma AppendKeepsCursors(w: World, date: string, record: string, io: AppendIo)
    requires Anchored(w.fs)
    ensures var v := AppendStep(w, date, record, io);
            v.fs.cursor == w.fs.cursor && v.fs.fee == w.fs.fee && (v.fs.mounted ==> w.fs.mounted)
  {
    hide HeaderLine, LineOf, LineLogged, ComDate.Key, TextOf, ComDate.ValidStamp;
  }

  /** The one file an append can create is its day's. */
  lemma AppendTouchesOne(w: World, date: string, record: string, io: AppendIo)
    ensures var v := AppendStep(w, date, record, io);
            forall f :: f in v.fs.card && f !in w.fs.card ==>
              w.fs.mounted && Writable(date, record) && f == ComDate.Key(date)
  {
    hide HeaderLine, LineOf, LineLogged, ComDate.Key, TextOf, ComDate.ValidStamp;
  }

  lemma HousekeepRetains(card: Card, w: World, io: SpaceIo)
    requires Inv(w) && Retained(card, w.fs) && Fair(w, HousekeepEvent(io))
    ensures Retained(card, Housekept(w.fs, io))
  {
    hide Inv, Left, Reclaimed;
    if Reclaimed(w.fs, io).Some? {
      var f := Reclaimed(w.fs, io).value;
      OnlyWhenMounted(w.fs, io);
      ReclaimedIsBehind(w, io);
      var gs := Housekept(w.fs, io);
      forall g | g in card && g !in gs.card
        ensures Left(gs, g)
      {
        LeftIgnoresRest(w.fs, gs, g);
      }
    }
  }

  lemma OnlyWhenMounted(fs: Fs, io: SpaceIo)
    requires Reclaimed(fs, io).Some?
    ensures fs.mounted
  {}

  lemma ReadMovesForward(fs: Fs, size: nat, io: ReadIo)
    requires Anchored(fs)
    ensures var gs := Read(fs, size, io).fs; gs.card == fs.card && Anchored(gs) && Forward(fs, gs)
  {
    hide Judge, HeaderEnd;
  }

  lemma StepRetains(card: Card, w: World, e: Event)
    requires Inv(w) && Retained(card, w.fs) && Legal(w, e) && Fair(w, e)
    ensures Retained(card, Step(w, e).fs)
  {
    hide Inv, Retained, AppendStep, Read, Housekept, Sent;
    match e
    case AppendEvent(date, record, io) => AppendRetains(card, w, date, record, io);
    case ReadEvent(io) =>
      RetainedIsAnchored(card, w.fs);
      ReadMovesForward(w.fs, DRAIN_BUFFER_SIZE, io);
      CursorsMove(card, w.fs, Step(w, e).fs);
    case HousekeepEvent(io) => HousekeepRetains(card, w, io);
    case _ =>
      RetainedIsAnchored(card, w.fs);
      CursorsMove(card, w.fs, Step(w, e).fs);
  }

  lemma RetainedIsAnchored(card: Card, fs: Fs)
    requires Retained(card, fs)
    ensures Anchored(fs)
  {}

  lemma {:induction false} RunRetains(card: Card, w: World, es: seq<Event>)
    requires Inv(w) && Retained(card, w.fs) && Allowed(w, es)
    ensures Retained(card, Run(w, es).fs)
    decreases |es|
  {
    hide Inv, Retained, Step, Legal, Fair;
    if es != [] {
      StepRetains(card, w, es[0]);
      StepKeepsInv(w, es[0]);
      RunRetains(card, Step(w, es[0]), es[1..]);
    }
  }

  /**
   * In every fair run of a unit that has a cursor, whatever is appended, read, removed or restarted: a file that was
   * on the card and is on it again or still has only been appended to. What housekeeping removes is never written
   * anew.
   */
  lemma FilesGrowOrGo(w: World, es: seq<Event>)
    requires Inv(w) && Anchored(w.fs) && Allowed(w, es)
    ensures Anchored(Run(w, es).fs) && Backfill.Kept(w.fs.card, Run(w, es).fs.card)
  {
    hide Inv, Run, Allowed;
    RunRetains(w.fs.card, w, es);
  }

  /** Before there is a cursor nothing stands against removing the file of a day and writing it anew. */
  lemma UnanchoredRewrites(w: World, space: SpaceIo, date: string, text: string)
    requires w.fs.cursor.None? && w.fs.fee.None? && ComDate.ValidStamp(date) && Clean(text)
    requires Reclaimed(w.fs, space) == Some(ComDate.Key(date))
    ensures var v := Step(w, HousekeepEvent(space)); var e := AppendEvent(date, text, Fairness.COMMITTED);
            && Fair(w, HousekeepEvent(space)) && Fair(v, e)
            && ComDate.Key(date) !in v.fs.card
            && Step(v, e).fs.card == v.fs.card[ComDate.Key(date) := Fairness.DayFile(text)]
  {
    hide Reclaimed, AppendStep, ComDate.Key, ComDate.ValidStamp, Fairness.DayFile, Clean;
    OnlyWhenMounted(w.fs, space);
    Fairness.FirstAppendOfDay(Step(w, HousekeepEvent(space)), date, text);
  }

  lemma {:induction false} RunSplits(w: World, es: seq<Event>, n: nat)
    requires Allowed(w, es) && n <= |es| && Inv(w)
    ensures Allowed(w, es[..n]) && Inv(Run(w, es[..n]))
    ensures Allowed(Run(w, es[..n]), es[n..]) && Run(Run(w, es[..n]), es[n..]) == Run(w, es)
    decreases n
  {
    hide Inv, Step, Legal, Fair;
    if n == 0 {
      assert es[..0] == [] && es[0..] == es;
    } else {
      StepKeepsInv(w, es[0]);
      RunSplits(Step(w, es[0]), es[1..], n - 1);
      assert es[..n][0] == es[0] && es[..n][1..] == es[1..][..n - 1] && es[n..] == es[1..][n - 1..];
    }
  }

  /** The moments of a transfer take the card as the run of the log has it after more and more of its events. */
  ghost predicate Beside(ms: seq<Backfill.Moment>, w: World, es: seq<Event>, at: seq<nat>)
    requires Allowed(w, es) && Inv(w)
  {
    && |at| == |ms|
    && (forall i :: 0 <= i < |ms| ==> at[i] <= |es| && ms[i].disk.card == CardAfter(w, es, at[i]))
    && (forall i, j :: 0 <= i <= j < |ms| ==> at[i] <= at[j])
  }

  ghost function CardAfter(w: World, es: seq<Event>, n: nat): Card
    requires Allowed(w, es) && n <= |es| && Inv(w)
  {
    RunSplits(w, es, n);
    Run(w, es[..n]).fs.card
  }

  /** A transfer beside a fair run of the log is never disturbed, so its payloads are its files. */
  lemma FairLoggingNeverDisturbs(ms: seq<Backfill.Moment>, w: World, es: seq<Event>, at: seq<nat>)
    requires Inv(w) && Anchored(w.fs) && Allowed(w, es) && Beside(ms, w, es, at)
    ensures Backfill.NeverDisturbed(Backfill.NO_TRANSFER, ms)
  {
    hide Inv, Allowed, Run, Backfill.Kept, Backfill.NeverDisturbed, CardAfter;
    forall i, j | 0 <= i <= j < |ms|
      ensures Backfill.Kept(ms[i].disk.card, ms[j].disk.card)
    {
      CardsBetween(w, es, at[i], at[j]);
    }
    Backfill.KeptFilesNeverDisturb(ms);
  }

  lemma CardsBetween(w: World, es: seq<Event>, m: nat, n: nat)
    requires Inv(w) && Anchored(w.fs) && Allowed(w, es) && m <= n <= |es|
    ensures Backfill.Kept(CardAfter(w, es, m), CardAfter(w, es, n))
  {
    hide Inv, Allowed, Run, Backfill.Kept;
    RunSplits(w, es, n);
    RunSplits(w, es[..n], m);
    assert es[..n][..m] == es[..m];
    FilesGrowOrGo(w, es[..m]);
    FilesGrowOrGo(Run(w, es[..m]), es[..n][m..]);
  }
}

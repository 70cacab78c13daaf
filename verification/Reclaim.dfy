/**
 * What any number of housekeeping passes of src/ecuabs/FsAbs do to the card, told by the space the card has left
 * and not by what one pass decides.
 */
module Reclaim {
  import opened Base
  import opened FsAbs

  ghost function Passes(fs: Fs, ios: seq<SpaceIo>): Fs
    decreases |ios|
  {
    if ios == [] then fs else Passes(Housekept(fs, ios[0]), ios[1..])
  }

  /** A pass that measures the card, finds less than 512 MiB free, and whose other platform calls work. */
  predicate Pressed(io: SpaceIo) {
    io.spaceOk && io.findOk && io.removeOk && io.capacity < io.used + 512
  }

  function PressedCount(ios: seq<SpaceIo>): (n: nat)
    ensures n <= |ios|
  {
    if ios == [] then 0 else (if Pressed(ios[0]) then 1 else 0) + PressedCount(ios[1..])
  }

  /** The files that may go: those older than the cursor's, or all of them when the cursor names none on the card. */
  ghost function Expendable(fs: Fs): set<nat> {
    set f | f in fs.card && (fs.cursor.None? || fs.cursor.value.file !in fs.card || f < fs.cursor.value.file)
  }

  /** Every file of the later card is the earlier one's, and every file that has gone was older than all of them. */
  ghost predicate OldestGone(before: Card, after: Card) {
    && after.Keys <= before.Keys
    && (forall f :: f in after ==> after[f] == before[f])
    && (forall f, g :: f in before && f !in after && g in after ==> f < g)
  }

  /** From one state to a later one: nothing but the card has changed, and `count` files have gone, the oldest first. */
  ghost predicate ShedOldest(fs: Fs, gs: Fs, count: nat) {
    && gs == fs.(card := gs.card)
    && OldestGone(fs.card, gs.card)
    && fs.card.Keys - gs.card.Keys <= Expendable(fs)
    && |fs.card.Keys - gs.card.Keys| == count
  }

  lemma PassSheds(fs: Fs, io: SpaceIo)
    ensures ShedOldest(fs, Housekept(fs, io), if fs.mounted && Pressed(io) && Expendable(fs) != {} then 1 else 0)
  {
    hide Pressed;
    var gs := Housekept(fs, io);
    PassTakes(fs, io);
    if Reclaimed(fs, io).Some? {
      var oldest := Reclaimed(fs, io).value;
      assert fs.card.Keys - gs.card.Keys == {oldest};
    } else {
      assert fs.card.Keys - gs.card.Keys == {};
    }
  }

  lemma PassTakes(fs: Fs, io: SpaceIo)
    ensures Reclaimed(fs, io).Some? <==> fs.mounted && Pressed(io) && Expendable(fs) != {}
    ensures Reclaimed(fs, io).Some? ==> Reclaimed(fs, io).value in Expendable(fs)
  {
    if fs.mounted && Pressed(io) && Expendable(fs) != {} {
      var f :| f in Expendable(fs);
      assert f in fs.card && f > -1;
    }
    if Reclaimed(fs, io).Some? {
      assert Reclaimed(fs, io).value in Expendable(fs);
    }
  }

  /** What may go after some of the oldest have gone is what is left of it. */
  lemma ExpendableAfter(fs: Fs, gs: Fs, count: nat)
    requires ShedOldest(fs, gs, count)
    ensures Expendable(gs) == Expendable(fs) * gs.card.Keys
    ensures |Expendable(gs)| == |Expendable(fs)| - count
  {
    StaysExpendable(fs, gs, count);
    GoneWereExpendable(fs, gs, count);
    var gone := fs.card.Keys - gs.card.Keys;
    assert Expendable(gs) == Expendable(fs) - gone by {
      assert Expendable(fs) <= fs.card.Keys;
    }
    hide *;
    PartsAddUp(Expendable(gs), gone, Expendable(fs));
  }

  lemma GoneWereExpendable(fs: Fs, gs: Fs, count: nat)
    requires ShedOldest(fs, gs, count)
    ensures fs.card.Keys - gs.card.Keys <= Expendable(fs) && |fs.card.Keys - gs.card.Keys| == count
  {}

  lemma StaysExpendable(fs: Fs, gs: Fs, count: nat)
    requires ShedOldest(fs, gs, count)
    ensures Expendable(gs) == Expendable(fs) * gs.card.Keys
  {
    if fs.cursor.Some? && fs.cursor.value.file in fs.card {
      CursorFileStays(fs, gs, count, fs.cursor.value.file);
    }
  }

  lemma CursorFileStays(fs: Fs, gs: Fs, count: nat, c: nat)
    requires ShedOldest(fs, gs, count) && fs.cursor.Some? && fs.cursor.value.file == c && c in fs.card
    ensures c in gs.card
  {
    assert c !in Expendable(fs);
    assert c !in fs.card.Keys - gs.card.Keys;
  }

  lemma PartsAddUp(a: set<nat>, b: set<nat>, c: set<nat>)
    requires b <= c && a == c - b
    ensures |c| == |a| + |b|
  {
    assert c == a + b && a * b == {};
  }

  lemma OrderComposes(a: Card, b: Card, c: Card)
    requires OldestGone(a, b) && OldestGone(b, c)
    ensures OldestGone(a, c)
  {
    forall f, g | f in a && f !in c && g in c
      ensures f < g
    {
      assert g in b;
    }
  }

  lemma ShedsCompose(fs: Fs, gs: Fs, hs: Fs, m: nat, n: nat)
    requires ShedOldest(fs, gs, m) && ShedOldest(gs, hs, n)
    ensures ShedOldest(fs, hs, m + n)
  {
    CountsCompose(fs, gs, hs, m, n);
    hide Expendable, OldestGone;
    OrderComposes(fs.card, gs.card, hs.card);
  }

  lemma CountsCompose(fs: Fs, gs: Fs, hs: Fs, m: nat, n: nat)
    requires ShedOldest(fs, gs, m) && ShedOldest(gs, hs, n)
    ensures hs.card.Keys <= fs.card.Keys && |fs.card.Keys - hs.card.Keys| == m + n
    ensures fs.card.Keys - hs.card.Keys <= Expendable(fs)
  {
    StaysExpendable(fs, gs, m);
    GoneWereExpendable(fs, gs, m);
    GoneWereExpendable(gs, hs, n);
    KeysShrink(fs, gs, m);
    KeysShrink(gs, hs, n);
    hide *;
    DifferencesAddUp(fs.card.Keys, gs.card.Keys, hs.card.Keys, Expendable(fs));
  }

  lemma KeysShrink(fs: Fs, gs: Fs, count: nat)
    requires ShedOldest(fs, gs, count)
    ensures gs.card.Keys <= fs.card.Keys
  {}

  lemma DifferencesAddUp(a: set<nat>, b: set<nat>, c: set<nat>, e: set<nat>)
    requires c <= b <= a && a - b <= e && b - c <= e
    ensures c <= a && |a - c| == |a - b| + |b - c| && a - c <= e
  {
    assert (a - c) - (a - b) == b - c;
    PartsAddUp(b - c, a - b, a - c);
  }

  /**
   * A pass takes a file exactly when the card is in use, has less than 512 MiB free, the calls work and a file older
   * than the cursor's is left; it takes the oldest. So any passes whatever remove as many of the oldest expendable
   * files as there were such passes, and touch nothing else.
   */
  lemma {:induction false} PassesShed(fs: Fs, ios: seq<SpaceIo>)
    ensures ShedOldest(fs, Passes(fs, ios), if fs.mounted then Min(PressedCount(ios), |Expendable(fs)|) else 0)
    decreases |ios|
  {
    hide ShedOldest, Housekept, Pressed, Expendable;
    if ios == [] {
      ShedNothing(fs);
    } else {
      var gs := Housekept(fs, ios[0]);
      var m := if fs.mounted && Pressed(ios[0]) && Expendable(fs) != {} then 1 else 0;
      PassSheds(fs, ios[0]);
      ExpendableAfter(fs, gs, m);
      SameUse(fs, gs, m);
      PassesShed(gs, ios[1..]);
      ShedsCompose(fs, gs, Passes(fs, ios), m,
                   if gs.mounted then Min(PressedCount(ios[1..]), |Expendable(gs)|) else 0);
    }
  }

  lemma ShedNothing(fs: Fs)
    ensures ShedOldest(fs, fs, 0)
  {
    assert fs.card.Keys - fs.card.Keys == {};
  }

  lemma SameUse(fs: Fs, gs: Fs, count: nat)
    requires ShedOldest(fs, gs, count)
    ensures gs.mounted == fs.mounted
  {}

  /** Passes that find 512 MiB or more free lose no file, whatever else they meet. */
  lemma RoomKeepsEveryFile(fs: Fs, ios: seq<SpaceIo>)
    requires forall io :: io in ios && io.spaceOk ==> io.capacity >= io.used + 512
    ensures Passes(fs, ios) == fs
  {
    PassesShed(fs, ios);
    NonePressed(ios);
    var gs := Passes(fs, ios);
    assert fs.card.Keys - gs.card.Keys == {};
    assert gs.card == fs.card;
  }

  lemma {:induction false} NonePressed(ios: seq<SpaceIo>)
    requires forall io :: io in ios && io.spaceOk ==> io.capacity >= io.used + 512
    ensures PressedCount(ios) == 0
  {
    if ios != [] {
      assert ios[0] in ios;
      NonePressed(ios[1..]);
    }
  }

  lemma {:induction false} AllPressed(ios: seq<SpaceIo>)
    requires forall io :: io in ios ==> Pressed(io)
    ensures PressedCount(ios) == |ios|
  {
    if ios != [] {
      assert ios[0] in ios;
      AllPressed(ios[1..]);
    }
  }

  /**
   * A card in use that stays below 512 MiB free: once there have been as many working passes as there are files
   * older than the cursor's, the cursor's file and the later ones are left; with no cursor on the card, none is.
   */
  lemma PressureClearsThePast(fs: Fs, ios: seq<SpaceIo>)
    requires fs.mounted && (forall io :: io in ios ==> Pressed(io)) && |Expendable(fs)| <= |ios|
    ensures forall f :: f in Passes(fs, ios).card <==>
              f in fs.card && fs.cursor.Some? && fs.cursor.value.file in fs.card && f >= fs.cursor.value.file
  {
    hide Passes;
    PassesShed(fs, ios);
    AllPressed(ios);
    var gs := Passes(fs, ios);
    ExpendableAfter(fs, gs, |Expendable(fs)|);
    assert Expendable(gs) == {};
    forall f
      ensures f in gs.card <==>
                f in fs.card && fs.cursor.Some? && fs.cursor.value.file in fs.card && f >= fs.cursor.value.file
    {
      if f in gs.card { assert f !in Expendable(gs) && f !in Expendable(fs); }
      if f in fs.card && f !in gs.card { assert f in Expendable(fs); }
    }
  }
}

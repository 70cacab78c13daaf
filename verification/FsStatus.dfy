/** Which status each call of src/ecuabs/FsAbs returns, and when. */
module FsStatus {
  import opened Base
  import opened FsFrame
  import opened FsAbs
  import ComDate

  /**
   * An append succeeds exactly for a valid date, a text of at most 2306 characters and a card in use, when its line
   * and, for a new file, its header before it are committed. Any other is refused with the one error status, and
   * leaves the card as it was when it is refused for its arguments or for want of a card.
   */
  lemma AppendIff(fs: Fs, date: string, record: string, io: AppendIo)
    ensures var (gs, status) := Appended(fs, date, record, io);
            var admitted := fs.mounted && ComDate.ValidStamp(date) && |record| % 65536 <= 2306;
            && (status == E_OK <==>
                  admitted && (ComDate.Key(date) in fs.card || io.header.Done?) && io.line.Done?)
            && (status == E_OK || status == E_NOT_OK)
            && (!admitted ==> gs == fs)
  {
    hide HeaderLine, LineOf, ComDate.Key, ComDate.ValidStamp;
  }

  /**
   * A span is passed once: an advance or a skip right after a read that gave one moves the cursor by it, a second one
   * is refused and moves nothing; the status says whether the cursor reached the stored cell.
   */
  lemma AdvanceOnce(fs: Fs, stored: bool, again: bool)
    requires WellFormed(fs)
    ensures var (gs, status) := Advanced(fs, stored);
            && (status == E_OK <==> fs.pending > 0 && stored) && (status == E_OK || status == E_NOT_OK)
            && (fs.pending > 0 ==> gs.cursor.value.offset == fs.cursor.value.offset + fs.pending)
            && (status == E_OK ==> gs.fee == gs.cursor) && (status != E_OK ==> gs.fee == fs.fee)
            && WellFormed(gs) && Advanced(gs, again) == (gs, E_NOT_OK)
  {}

  /** The cursor a read starts from, its header behind it. */
  function Start(fs: Fs, io: ReadIo): Cursor
    requires fs.cursor.Some?
  {
    HeaderSkipped(fs.card, fs.cursor.value, io.peekOk)
  }

  /** There is a file after the cursor's, and the directory walk finds it. */
  ghost predicate CanCross(fs: Fs, c: Cursor, io: ReadIo) {
    io.findOk && exists f: nat :: f in fs.card && f > c.file
  }

  /**
   * A read finds nothing exactly without a card or a cursor, when its file cannot be read, or at the end of the file
   * when it cannot go on to a later one; it reports a crossing exactly at the end when it can; and anything else it
   * says of bytes it has read.
   */
  lemma ReadIff(fs: Fs, size: nat, io: ReadIo)
    ensures var status := Read(fs, size, io).status;
            if !fs.mounted || fs.cursor.None? then status == E_NOT_FOUND
            else
              var c := Start(fs, io);
              var readable := io.readOk && c.file in fs.card;
              var ended := readable && c.offset >= |fs.card[c.file]|;
              && (status == E_NOT_FOUND <==> !readable || (ended && !CanCross(fs, c, io)))
              && (status == E_PENDING <==> ended && CanCross(fs, c, io))
              && (status == E_OK || status == E_CRC_FAIL || status == E_NOT_OK <==> readable && !ended)
  {
    hide HeaderSkipped, NextLog, Judge;
    if fs.mounted && fs.cursor.Some? {
      var c := Start(fs, io);
      var next := NextLog(fs.card, c.file);
      if next.Some? { assert next.value in fs.card && next.value > c.file; }
    }
  }

  /**
   * At the start of a file the cursor passes over a first line exactly when that line ends within the first 3071
   * characters and holds no separator, as a header does and a stored record does not.
   */
  lemma HeaderPassedIff(card: Card, file: nat, n: nat)
    requires file in card && n == FirstNewline(card[file])
    ensures HeaderSkipped(card, Cursor(file, 0), true).offset
         == if n < |card[file]| && n < 3071 && '|' !in card[file][..n] then n + 1 else 0
  {
    var content := card[file];
    var peek := Chunk(content, 0, PEEK_SIZE);
    FirstNewlineIs(peek, Min(n, |peek|));
    if n < |peek| { assert peek[..n] == content[..n]; }
  }
}

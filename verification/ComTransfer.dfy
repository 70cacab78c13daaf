/** Chunk plans and backfill requests of src/services/Com. */
module ComTransfer {
  import opened Base
  import opened ComText
  import ComDate

  const TRANSFER_CHUNK_SIZE := 2048
  const MAX_BACKFILL_DATES := 16
  const MAX_REQUEST_PAYLOAD := 256

  // ---------------------------------------------------------------------------------------------
  // Chunks
  // ---------------------------------------------------------------------------------------------

  datatype ChunkPlan = ChunkPlan(chunkCount: nat, fullChunkCount: nat, lastChunkSize: nat)

  /** The plan cuts `size` bytes into chunks. */
  predicate PlanFor(plan: ChunkPlan, size: nat, chunkSize: nat) {
    && plan.fullChunkCount * chunkSize + plan.lastChunkSize == size
    && plan.lastChunkSize < chunkSize
    && plan.chunkCount == plan.fullChunkCount + if plan.lastChunkSize > 0 then 1 else 0
  }

  function PlanOf(size: nat, chunkSize: nat): ChunkPlan
    requires chunkSize > 0
  {
    var full, last := size / chunkSize, size % chunkSize;
    ChunkPlan(if last == 0 then full else full + 1, full, last)
  }

  lemma PlanOfIsPlan(size: nat, chunkSize: nat)
    requires chunkSize > 0
    ensures PlanFor(PlanOf(size, chunkSize), size, chunkSize)
    ensures PlanOf(size, chunkSize).chunkCount == 0 <==> size == 0
  {
    assert size / chunkSize * chunkSize + size % chunkSize == size;
  }

  /** How many of the bytes the first k chunks carry. */
  function CoveredBy(size: nat, chunkSize: nat, k: nat): nat {
    Min(k * chunkSize, size)
  }

  /** Offset and length of chunk k, or nothing past the last. */
  function ExtentOf(plan: ChunkPlan, k: nat, chunkSize: nat): Option<(nat, nat)> {
    if k >= plan.chunkCount then None
    else Some((k * chunkSize,
               if k == plan.chunkCount - 1 && plan.lastChunkSize > 0 then plan.lastChunkSize else chunkSize))
  }

  /** The chunks of a plan tile the bytes: each starts where the ones before it end, and the last ends the file. */
  lemma ExtentsTile(plan: ChunkPlan, k: nat, chunkSize: nat, size: nat)
    requires PlanFor(plan, size, chunkSize)
    ensures var e := ExtentOf(plan, k, chunkSize);
            && (e == None ==> CoveredBy(size, chunkSize, k) == size)
            && (e.Some? ==> e.value.0 == CoveredBy(size, chunkSize, k) && 0 < e.value.1 <= chunkSize &&
                            e.value.0 + e.value.1 == CoveredBy(size, chunkSize, k + 1))
  {
    ChunkBounds(plan, k, size, chunkSize);
  }

  method ComputeChunkPlan(fileSize: nat, chunkSize: nat) returns (plan: ChunkPlan)
    requires chunkSize > 0
    ensures plan == PlanOf(fileSize, chunkSize)
    ensures PlanFor(plan, fileSize, chunkSize)
    ensures plan.chunkCount == 0 <==> fileSize == 0
  {
    PlanOfIsPlan(fileSize, chunkSize);
    if fileSize == 0 {
      return ChunkPlan(0, 0, 0);
    }
    var full, last := fileSize / chunkSize, fileSize % chunkSize;
    plan := if last == 0 then ChunkPlan(full, full, last) else ChunkPlan(full + 1, full, last);
  }

  /** The extent of a chunk, or nothing past the last: chunk k starts where the ones before it end. */
  method GetChunkExtent(plan: ChunkPlan, index: nat, chunkSize: nat) returns (extent: Option<(nat, nat)>)
    ensures extent == ExtentOf(plan, index, chunkSize)
    ensures forall size: nat :: PlanFor(plan, size, chunkSize) ==>
              && (extent == None ==> CoveredBy(size, chunkSize, index) == size)
              && (extent.Some? ==> extent.value.0 == CoveredBy(size, chunkSize, index) &&
                                   0 < extent.value.1 <= chunkSize &&
                                   extent.value.0 + extent.value.1 == CoveredBy(size, chunkSize, index + 1))
  {
    forall size: nat | PlanFor(plan, size, chunkSize) {
      ExtentsTile(plan, index, chunkSize, size);
    }
    if index >= plan.chunkCount {
      return None;
    }
    var length := if index == plan.chunkCount - 1 && plan.lastChunkSize > 0 then plan.lastChunkSize else chunkSize;
    extent := Some((index * chunkSize, length));
  }

  lemma ChunkBounds(plan: ChunkPlan, index: nat, size: nat, chunkSize: nat)
    requires PlanFor(plan, size, chunkSize)
    ensures (index + 1) * chunkSize == index * chunkSize + chunkSize
    ensures index < plan.fullChunkCount ==> index * chunkSize + chunkSize <= size
    ensures index == plan.fullChunkCount ==> index * chunkSize + plan.lastChunkSize == size
    ensures index > plan.fullChunkCount ==> index * chunkSize >= size
  {
    var full := plan.fullChunkCount;
    if index < full {
      MulMonotone(index + 1, full, chunkSize);
    } else {
      MulMonotone(if index > full then full + 1 else full, index, chunkSize);
    }
  }

  lemma MulMonotone(a: nat, b: nat, c: nat)
    requires a <= b
    ensures a * c <= b * c
  {}

  // ---------------------------------------------------------------------------------------------
  // Requests
  // ---------------------------------------------------------------------------------------------

  predicate IsBreak(c: char) {
    c == SEPARATOR || c == '\0'
  }

  /** The dates a request names, in order: its valid fields between commas, NULs and the ends. */
  function Wanted(s: string): seq<string> {
    WantedFrom("", s)
  }

  /** As Wanted, with `field` read so far. */
  function WantedFrom(field: string, s: string): seq<string>
    decreases |s|
  {
    if s == "" then One(field)
    else if IsBreak(s[0]) then One(field) + WantedFrom("", s[1..])
    else WantedFrom(field + [s[0]], s[1..])
  }

  function One(field: string): seq<string> {
    if ComDate.ValidStamp(field) then [field] else []
  }

  function Bounded(payload: string): string {
    payload[..Min(|payload|, MAX_REQUEST_PAYLOAD)]
  }

  /** A field is wanted exactly when it is a valid date. */
  lemma {:induction false} WantedAlone(read: string, s: string)
    requires ',' !in s && '\0' !in s
    ensures WantedFrom(read, s) == if ComDate.ValidStamp(read + s) then [read + s] else []
    decreases |s|
  {
    hide ComDate.ValidStamp;
    if s == "" {
      assert read + s == read;
    } else {
      assert s[0] in s && read + [s[0]] + s[1..] == read + s;
      WantedAlone(read + [s[0]], s[1..]);
    }
  }

  /** Commas and NULs, and nothing else, keep fields apart. */
  lemma {:induction false} WantedSplits(read: string, a: string, c: char, b: string)
    requires c == ',' || c == '\0'
    ensures WantedFrom(read, a + [c] + b) == WantedFrom(read, a) + WantedFrom("", b)
    decreases |a|
  {
    hide One;
    if a == "" {
      assert "" + [c] + b == [c] + b && ([c] + b)[1..] == b;
    } else {
      assert (a + [c] + b)[1..] == a[1..] + [c] + b && (a + [c] + b)[0] == a[0];
      if IsBreak(a[0]) {
        WantedSplits("", a[1..], c, b);
        Reassociate(One(read), WantedFrom("", a[1..]), WantedFrom("", b));
      } else {
        WantedSplits(read + [a[0]], a[1..], c, b);
      }
    }
  }

  /**
   * What a request names: a request without commas and NULs names itself if it is a valid date and nothing
   * otherwise, and one that is cut at either names what its parts name, in order.
   */
  lemma WantedIff(a: string, c: char, b: string)
    requires c == ',' || c == '\0'
    ensures ',' !in a && '\0' !in a ==> Wanted(a) == if ComDate.ValidStamp(a) then [a] else []
    ensures Wanted(a + [c] + b) == Wanted(a) + Wanted(b)
  {
    hide ComDate.ValidStamp;
    WantedSplits("", a, c, b);
    if ',' !in a && '\0' !in a {
      WantedAlone("", a);
      assert "" + a == a;
    }
  }

  /** Com_ParseBackfillRequest: the first dates of the bounded payload, the rest only counted. */
  method ParseBackfillRequest(payload: string, maxDates: nat)
    returns (status: Status, dates: seq<string>, dropped: nat)
    requires 0 < maxDates
    ensures var wanted := Wanted(payload[..if |payload| > 256 then 256 else |payload|]);
            && dates == wanted[..Min(|wanted|, maxDates)]
            && dropped == Min(|wanted| - |dates|, 0xFF)
            && (status == E_OK <==> wanted != []) && (status == E_OK || status == E_NOT_FOUND)
  {
    hide ComDate.ValidStamp;
    var scanLimit := if |payload| > MAX_REQUEST_PAYLOAD then MAX_REQUEST_PAYLOAD else |payload|;
    var fieldStart := 0;
    ghost var found: seq<string> := [];
    dates, dropped := [], 0;
    for i := 0 to scanLimit + 1
      invariant 0 <= fieldStart <= i && (i > scanLimit ==> fieldStart == i) && fieldStart <= scanLimit + 1
      invariant dates == found[..Min(|found|, maxDates)] && dropped == Min(|found| - |dates|, 0xFF)
      invariant i <= scanLimit ==>
        Wanted(payload[..scanLimit]) == found + WantedFrom(payload[fieldStart..i], payload[i..scanLimit])
      invariant i > scanLimit ==> Wanted(payload[..scanLimit]) == found
    {
      var atEnd := i == scanLimit;
      if atEnd || IsBreak(payload[i]) {
        var candidate := payload[fieldStart..i];
        if |candidate| == ComDate.DATE_LENGTH {
          var valid := ComDate.IsValidDate(candidate);
          if valid {
            if |dates| < maxDates {
              dates := dates + [candidate];
            } else if dropped < 0xFF {
              dropped := dropped + 1;
            }
          }
        }
        StampLength(candidate);
        TakeMore(found, candidate, maxDates);
        if !atEnd {
          assert payload[i..scanLimit][1..] == payload[i + 1..scanLimit] && payload[i + 1..i + 1] == "";
          Reassociate(found, One(candidate), WantedFrom("", payload[i + 1..scanLimit]));
        }
        found := found + One(candidate);
        fieldStart := i + 1;
      } else {
        assert payload[i..scanLimit][1..] == payload[i + 1..scanLimit];
        assert payload[fieldStart..i] + [payload[i]] == payload[fieldStart..i + 1];
      }
    }
    status := if |dates| == 0 then E_NOT_FOUND else E_OK;
  }

  lemma Reassociate(a: seq<string>, b: seq<string>, c: seq<string>)
    ensures a + (b + c) == (a + b) + c
  {}

  lemma TakeMore(found: seq<string>, s: string, n: nat)
    ensures (found + [s])[..Min(|found| + 1, n)] == found[..Min(|found|, n)] + if |found| < n then [s] else []
    ensures found + [] == found
  {}

  lemma StampLength(field: string)
    ensures ComDate.ValidStamp(field) ==> |field| == ComDate.DATE_LENGTH && AllDigits(field)
  {}

  /** A request written as its dates between commas is read back as those dates. */
  lemma {:induction false} RequestRoundTrip(dates: seq<string>)
    requires dates != [] && forall i :: 0 <= i < |dates| ==> ComDate.ValidStamp(dates[i])
    ensures Wanted(Join(dates)) == dates
    ensures |Join(dates)| == 9 * |dates| - 1
    ensures |dates| <= 16 ==> Bounded(Join(dates)) == Join(dates)
    decreases |dates|
  {
    hide ComDate.ValidStamp;
    var date := dates[0];
    assert ComDate.ValidStamp(date);
    StampLength(date);
    assert "" + date == date && date + "" == date;
    if |dates| == 1 {
      WantedField("", date, "");
    } else {
      RequestRoundTrip(dates[1..]);
      WantedField("", date, [SEPARATOR] + Join(dates[1..]));
      assert Join(dates) == date + ([SEPARATOR] + Join(dates[1..]));
      assert ([SEPARATOR] + Join(dates[1..]))[1..] == Join(dates[1..]);
    }
  }

  lemma {:induction false} WantedField(field: string, date: string, rest: string)
    requires AllDigits(date)
    ensures WantedFrom(field, date + rest) == WantedFrom(field + date, rest)
    decreases |date|
  {
    if date == "" {
      assert field + date == field && date + rest == rest;
    } else {
      assert (date + rest)[1..] == date[1..] + rest;
      assert field + [date[0]] + date[1..] == field + date;
      WantedField(field + [date[0]], date[1..], rest);
    }
  }
}

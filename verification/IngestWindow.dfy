// What one flush window holds: the best-known state of each aircraft.
module IngestWindow {
  import opened Common

  datatype AircraftPosition = AircraftPosition(
    hex: string,
    callsign: Option<string>,
    altitude: Option<real>,
    groundSpeed: Option<real>,
    track: Option<real>,
    latitude: Option<real>,
    longitude: Option<real>,
    verticalRate: Option<real>,
    squawk: Option<string>,
    isOnGround: Option<bool>,
    timestamp: string,
    messageCount: nat)

  type Buffer = map<string, AircraftPosition>

  /** The existing entry with what the new message knows. */
  function Merged(existing: AircraftPosition, newer: AircraftPosition): AircraftPosition {
    existing.(callsign := Coalesce(newer.callsign, existing.callsign),
          altitude := Coalesce(newer.altitude, existing.altitude),
          groundSpeed := Coalesce(newer.groundSpeed, existing.groundSpeed),
          track := Coalesce(newer.track, existing.track),
          latitude := Coalesce(newer.latitude, existing.latitude),
          longitude := Coalesce(newer.longitude, existing.longitude),
          verticalRate := Coalesce(newer.verticalRate, existing.verticalRate),
          squawk := Coalesce(newer.squawk, existing.squawk),
          isOnGround := Coalesce(newer.isOnGround, existing.isOnGround),
          timestamp := newer.timestamp)
  }

  function MergedInto(buffer: Buffer, p: AircraftPosition): Buffer {
    buffer[p.hex := if p.hex in buffer then Merged(buffer[p.hex], p) else p]
  }

  /** The buffer after a window of messages. */
  function BufferOf(window: seq<AircraftPosition>): Buffer {
    if window == [] then map[]
    else MergedInto(BufferOf(window[..|window| - 1]), window[|window| - 1])
  }

  /** One aircraft's messages merged in order. */
  function Fold(ms: seq<AircraftPosition>): AircraftPosition
    requires ms != []
  {
    var n := |ms| - 1;
    if n == 0 then ms[0] else Merged(Fold(ms[..n]), ms[n])
  }

  predicate HasHex(hex: string, p: AircraftPosition) {
    p.hex == hex
  }

  function MessagesOf(window: seq<AircraftPosition>, hex: string): seq<AircraftPosition> {
    Filter((p: AircraftPosition) => HasHex(hex, p), window)
  }

  // ------------------------------------------------------------ split windows

  lemma MergeIsAssociative(a: AircraftPosition, b: AircraftPosition, c: AircraftPosition)
    ensures Merged(Merged(a, b), c) == Merged(a, Merged(b, c))
  {
  }

  /** Where a window is split makes no difference to one aircraft. */
  lemma {:induction false} FoldSplits(xs: seq<AircraftPosition>, ys: seq<AircraftPosition>)
    requires xs != [] && ys != []
    ensures Fold(xs + ys) == Merged(Fold(xs), Fold(ys))
  {
    var n := |ys| - 1;
    assert (xs + ys)[..|xs| + n] == xs + ys[..n];
    if n > 0 {
      FoldSplits(xs, ys[..n]);
      MergeIsAssociative(Fold(xs), Fold(ys[..n]), ys[n]);
    } else {
      assert xs + ys[..0] == xs;
    }
  }

  /** Each entry is its own aircraft's messages merged; aircraft never affect each other. */
  lemma {:induction false} BufferIsPerAircraft(window: seq<AircraftPosition>, hex: string)
    ensures hex in BufferOf(window) <==> MessagesOf(window, hex) != []
    ensures hex in BufferOf(window) ==> BufferOf(window)[hex] == Fold(MessagesOf(window, hex))
  {
    if window != [] {
      var n := |window| - 1;
      BufferIsPerAircraft(window[..n], hex);
      var ms := MessagesOf(window[..n], hex);
      if window[n].hex == hex {
        assert MessagesOf(window, hex) == ms + [window[n]];
        assert (ms + [window[n]])[..|ms|] == ms;
      }
    }
  }

  /** Two buffers merged entry by entry. */
  function MergedBuffers(a: Buffer, b: Buffer): Buffer {
    map hex | hex in a.Keys + b.Keys ::
      if hex !in b then a[hex] else if hex !in a then b[hex] else Merged(a[hex], b[hex])
  }

  /** Absorbing a whole window is merging the buffers of its two halves. */
  lemma WindowSplits(xs: seq<AircraftPosition>, ys: seq<AircraftPosition>)
    ensures BufferOf(xs + ys) == MergedBuffers(BufferOf(xs), BufferOf(ys))
  {
    var whole, parts := BufferOf(xs + ys), MergedBuffers(BufferOf(xs), BufferOf(ys));
    forall hex ensures hex in whole <==> hex in parts
      ensures hex in whole ==> whole[hex] == parts[hex]
    {
      BufferIsPerAircraft(xs, hex);
      BufferIsPerAircraft(ys, hex);
      BufferIsPerAircraft(xs + ys, hex);
      FilterAppend((p: AircraftPosition) => HasHex(hex, p), xs, ys);
      var ms, ns := MessagesOf(xs, hex), MessagesOf(ys, hex);
      assert MessagesOf(xs + ys, hex) == ms + ns;
      if ms != [] && ns != [] {
        FoldSplits(ms, ns);
      } else if ms == [] {
        assert ms + ns == ns;
      } else {
        assert ms + ns == ms;
      }
    }
    assert whole.Keys == parts.Keys;
  }

  // ------------------------------------------------------- what an entry means

  /** `r` is the last known value: the newest that is not null, or null if none is known. */
  ghost predicate LastKnown<T>(ms: seq<AircraftPosition>, field: AircraftPosition -> Option<T>, r: Option<T>) {
    || (r.None? && forall i | 0 <= i < |ms| :: field(ms[i]).None?)
    || (r.Some? && exists i | 0 <= i < |ms| :: field(ms[i]) == r && forall j | i < j < |ms| :: field(ms[j]).None?)
  }

  lemma LastKnownSnoc<T>(ms: seq<AircraftPosition>, p: AircraftPosition,
                         field: AircraftPosition -> Option<T>, r: Option<T>)
    requires LastKnown(ms, field, r)
    ensures LastKnown(ms + [p], field, Coalesce(field(p), r))
  {
    var all := ms + [p];
    assert all[|ms|] == p;
    if field(p).None? && r.Some? {
      var i :| 0 <= i < |ms| && field(ms[i]) == r && forall j | i < j < |ms| :: field(ms[j]).None?;
      assert all[i] == ms[i];
      assert forall j | i < j < |all| :: field(all[j]).None?;
    }
  }

  /** Every field of a merged entry is the last known one; the timestamp is the newest message's. */
  ghost predicate Summarises(e: AircraftPosition, ms: seq<AircraftPosition>)
    requires ms != []
  {
    && e.hex == ms[0].hex
    && LastKnown(ms, (p: AircraftPosition) => p.callsign, e.callsign)
    && LastKnown(ms, (p: AircraftPosition) => p.altitude, e.altitude)
    && LastKnown(ms, (p: AircraftPosition) => p.groundSpeed, e.groundSpeed)
    && LastKnown(ms, (p: AircraftPosition) => p.track, e.track)
    && LastKnown(ms, (p: AircraftPosition) => p.latitude, e.latitude)
    && LastKnown(ms, (p: AircraftPosition) => p.longitude, e.longitude)
    && LastKnown(ms, (p: AircraftPosition) => p.verticalRate, e.verticalRate)
    && LastKnown(ms, (p: AircraftPosition) => p.squawk, e.squawk)
    && LastKnown(ms, (p: AircraftPosition) => p.isOnGround, e.isOnGround)
    && e.timestamp == ms[|ms| - 1].timestamp
  }

  /** Merging one more message keeps an entry the summary of its messages. */
  lemma MergedSummarises(e: AircraftPosition, ms: seq<AircraftPosition>, p: AircraftPosition)
    requires ms != [] && Summarises(e, ms)
    ensures Summarises(Merged(e, p), ms + [p])
  {
    hide LastKnown;
    LastKnownSnoc(ms, p, (q: AircraftPosition) => q.callsign, e.callsign);
    LastKnownSnoc(ms, p, (q: AircraftPosition) => q.altitude, e.altitude);
    LastKnownSnoc(ms, p, (q: AircraftPosition) => q.groundSpeed, e.groundSpeed);
    LastKnownSnoc(ms, p, (q: AircraftPosition) => q.track, e.track);
    LastKnownSnoc(ms, p, (q: AircraftPosition) => q.latitude, e.latitude);
    LastKnownSnoc(ms, p, (q: AircraftPosition) => q.longitude, e.longitude);
    LastKnownSnoc(ms, p, (q: AircraftPosition) => q.verticalRate, e.verticalRate);
    LastKnownSnoc(ms, p, (q: AircraftPosition) => q.squawk, e.squawk);
    LastKnownSnoc(ms, p, (q: AircraftPosition) => q.isOnGround, e.isOnGround);
  }

  lemma FirstSummarises(p: AircraftPosition)
    ensures Summarises(p, [p])
  {
  }

  lemma {:induction false} FoldSummarises(ms: seq<AircraftPosition>)
    requires ms != []
    ensures Summarises(Fold(ms), ms)
  {
    hide Summarises;
    var n := |ms| - 1;
    assert ms == ms[..n] + [ms[n]];
    if n == 0 {
      FirstSummarises(ms[0]);
    } else {
      FoldSummarises(ms[..n]);
      MergedSummarises(Fold(ms[..n]), ms[..n], ms[n]);
    }
  }

  /** The meaning of the buffer after any window. */
  lemma EntriesAreLastKnown(window: seq<AircraftPosition>, hex: string)
    requires hex in BufferOf(window)
    ensures MessagesOf(window, hex) != [] && Summarises(BufferOf(window)[hex], MessagesOf(window, hex))
  {
    BufferIsPerAircraft(window, hex);
    FoldSummarises(MessagesOf(window, hex));
  }

  // ----------------------------------------------------------- message counts

  /** The entry a flush hands on: the merged state with the window's message count. */
  function Stamped(window: seq<AircraftPosition>, hex: string): AircraftPosition
    requires hex in BufferOf(window)
  {
    BufferOf(window)[hex].(messageCount := |MessagesOf(window, hex)|)
  }

  lemma SummaryIgnoresCount(e: AircraftPosition, ms: seq<AircraftPosition>, n: nat)
    requires ms != [] && Summarises(e, ms)
    ensures Summarises(e.(messageCount := n), ms)
  {
    hide LastKnown;
  }

  lemma SenderIsBuffered(window: seq<AircraftPosition>, p: AircraftPosition)
    requires p in window
    ensures p.hex in BufferOf(window)
  {
    BufferIsPerAircraft(window, p.hex);
    FilterElements((q: AircraftPosition) => HasHex(p.hex, q), window);
  }

  /** One stamped entry for each aircraft of the window, in some order. */
  ghost predicate IsBatch(batch: seq<AircraftPosition>, window: seq<AircraftPosition>) {
    && (forall i | 0 <= i < |batch| :: batch[i].hex in BufferOf(window) && batch[i] == Stamped(window, batch[i].hex))
    && (forall i, j | 0 <= i < j < |batch| :: batch[i].hex != batch[j].hex)
    && (forall hex | hex in BufferOf(window) :: exists i :: 0 <= i < |batch| && batch[i].hex == hex)
  }

  /**
   * What a batch says: each entry has the last known value of every field among its own
   * aircraft's messages in the window, and their number. Every aircraft that sent one
   * has an entry, and no aircraft has two.
   */
  lemma BatchMeans(batch: seq<AircraftPosition>, window: seq<AircraftPosition>)
    requires IsBatch(batch, window)
    ensures forall i | 0 <= i < |batch| ::
      && MessagesOf(window, batch[i].hex) != []
      && Summarises(batch[i], MessagesOf(window, batch[i].hex))
      && batch[i].messageCount == |MessagesOf(window, batch[i].hex)|
    ensures forall p | p in window :: exists i :: 0 <= i < |batch| && batch[i].hex == p.hex
    ensures forall i, j | 0 <= i < j < |batch| :: batch[i].hex != batch[j].hex
  {
    hide BufferOf, MessagesOf, Summarises;
    forall i | 0 <= i < |batch|
      ensures MessagesOf(window, batch[i].hex) != []
      ensures Summarises(batch[i], MessagesOf(window, batch[i].hex))
    {
      EntriesAreLastKnown(window, batch[i].hex);
      var ms := MessagesOf(window, batch[i].hex);
      SummaryIgnoresCount(BufferOf(window)[batch[i].hex], ms, |ms|);
    }
    forall p | p in window ensures exists i :: 0 <= i < |batch| && batch[i].hex == p.hex {
      SenderIsBuffered(window, p);
    }
  }

  function TotalMessages(batch: seq<AircraftPosition>): nat {
    if batch == [] then 0 else TotalMessages(batch[..|batch| - 1]) + batch[|batch| - 1].messageCount
  }

  function Without(window: seq<AircraftPosition>, hex: string): seq<AircraftPosition> {
    Filter((p: AircraftPosition) => !HasHex(hex, p), window)
  }

  lemma {:induction false} WithoutSplits(window: seq<AircraftPosition>, hex: string)
    ensures |window| == |Without(window, hex)| + |MessagesOf(window, hex)|
    ensures forall other | other != hex :: MessagesOf(Without(window, hex), other) == MessagesOf(window, other)
    ensures MessagesOf(Without(window, hex), hex) == []
  {
    if window != [] {
      var n := |window| - 1;
      WithoutSplits(window[..n], hex);
      var rest := Without(window[..n], hex);
      forall other ensures MessagesOf(rest + [window[n]], other)
          == MessagesOf(rest, other) + if window[n].hex == other then [window[n]] else []
      {
        FilterSnoc((p: AircraftPosition) => HasHex(other, p), rest, window[n]);
      }
    }
  }

  lemma LastIsBuffered(window: seq<AircraftPosition>)
    ensures window == [] || window[|window| - 1].hex in BufferOf(window)
  {
  }

  lemma SmallerBatch(batch: seq<AircraftPosition>, window: seq<AircraftPosition>)
    requires batch != [] && IsBatch(batch, window)
    ensures IsBatch(batch[..|batch| - 1], Without(window, batch[|batch| - 1].hex))
  {
    hide BufferOf, MessagesOf, Without, Fold;
    var n := |batch| - 1;
    var hex, less := batch[n].hex, Without(window, batch[n].hex);
    WithoutSplits(window, hex);
    forall other
      ensures other in BufferOf(less) <==> other in BufferOf(window) && other != hex
      ensures other in BufferOf(less) ==> Stamped(less, other) == Stamped(window, other)
    {
      BufferIsPerAircraft(less, other);
      BufferIsPerAircraft(window, other);
    }
    forall other | other in BufferOf(less) ensures exists i :: 0 <= i < n && batch[..n][i].hex == other {
      var i :| 0 <= i < |batch| && batch[i].hex == other;
      assert batch[..n][i].hex == other;
    }
  }

  /** A flushed batch accounts for every message of its window, in whatever order it is built. */
  lemma {:induction false} BatchAccountsForWindow(batch: seq<AircraftPosition>, window: seq<AircraftPosition>)
    requires IsBatch(batch, window)
    ensures TotalMessages(batch) == |window|
  {
    if batch == [] {
      LastIsBuffered(window);
    } else {
      var n := |batch| - 1;
      var hex := batch[n].hex;
      WithoutSplits(window, hex);
      SmallerBatch(batch, window);
      BatchAccountsForWindow(batch[..n], Without(window, hex));
    }
  }
}

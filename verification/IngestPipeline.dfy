// The ingest loop's state: merge buffer, message counts and raw archive, changed
// in place by received lines and flush ticks.
module IngestPipeline {
  import opened Common
  import opened IngestWindow

  datatype RawRecord = RawRecord(hex: string, text: string)

  /** A received line after decoding and parsing; either parse may fail. */
  datatype Line = Line(raw: Option<RawRecord>, position: Option<AircraftPosition>)

  function EmittedTotal(batches: seq<seq<AircraftPosition>>): nat {
    if batches == [] then 0 else EmittedTotal(batches[..|batches| - 1]) + TotalMessages(batches[|batches| - 1])
  }

  /** Part of the buffer has moved to the batch, `at` saying where each aircraft went. */
  ghost predicate Draining(window: seq<AircraftPosition>, left: set<string>,
                           batch: seq<AircraftPosition>, at: map<string, nat>)
  {
    && (forall hex :: hex in BufferOf(window) <==> hex in left || hex in at)
    && (forall hex | hex in at :: hex !in left && at[hex] < |batch| && batch[at[hex]].hex == hex)
    && (forall i | 0 <= i < |batch| ::
          batch[i].hex in at && at[batch[i].hex] == i && batch[i] == Stamped(window, batch[i].hex))
  }

  lemma DrainStart(window: seq<AircraftPosition>)
    ensures Draining(window, BufferOf(window).Keys, [], map[])
  {
  }

  lemma DrainStep(window: seq<AircraftPosition>, left: set<string>,
                  batch: seq<AircraftPosition>, at: map<string, nat>, hex: string)
    requires Draining(window, left, batch, at) && hex in left && Stamped(window, hex).hex == hex
    ensures Draining(window, left - {hex}, batch + [Stamped(window, hex)], at[hex := |batch|])
  {
    hide BufferOf, MessagesOf;
  }

  lemma DrainEnd(window: seq<AircraftPosition>, batch: seq<AircraftPosition>, at: map<string, nat>)
    requires Draining(window, {}, batch, at)
    ensures IsBatch(batch, window)
  {
    hide BufferOf, MessagesOf;
  }

  lemma AbsorbOne(window: seq<AircraftPosition>, p: AircraftPosition)
    ensures BufferOf(window + [p]) == MergedInto(BufferOf(window), p)
    ensures forall hex ::
      MessagesOf(window + [p], hex) == MessagesOf(window, hex) + if hex == p.hex then [p] else []
    ensures p.hex in BufferOf(window) <==> MessagesOf(window, p.hex) != []
  {
    assert (window + [p])[..|window|] == window;
    BufferIsPerAircraft(window, p.hex);
    forall hex ensures MessagesOf(window + [p], hex) == MessagesOf(window, hex) + if hex == p.hex then [p] else [] {
      FilterSnoc((q: AircraftPosition) => HasHex(hex, q), window, p);
    }
  }

  lemma NoWindow(window: seq<AircraftPosition>)
    ensures BufferOf(window) == map[] <==> window == []
  {
    if window != [] {
      assert window[|window| - 1].hex in BufferOf(window);
    }
  }

  lemma KeysAreHexes(window: seq<AircraftPosition>, hex: string)
    requires hex in BufferOf(window)
    ensures BufferOf(window)[hex].hex == hex
  {
    EntriesAreLastKnown(window, hex);
    FilterElements((p: AircraftPosition) => HasHex(hex, p), window);
    assert MessagesOf(window, hex)[0] in MessagesOf(window, hex);
  }

  class Pipeline {
    var buffer: Buffer
    var messageCounts: map<string, nat>
    var rawBuffer: seq<RawRecord>
    var messagesParsed: nat

    // Batches handed to the sink, and the positions absorbed since the last one.
    var sink: seq<seq<AircraftPosition>>
    ghost var window: seq<AircraftPosition>

    /**
     * The buffer is the window merged, the counts are the window counted under the
     * same keys, and every message parsed is either handed on or pending.
     */
    ghost predicate Valid()
      reads this
    {
      && buffer == BufferOf(window)
      && messageCounts.Keys == buffer.Keys
      && (forall hex | hex in messageCounts :: messageCounts[hex] == |MessagesOf(window, hex)| >= 1)
      && messagesParsed == EmittedTotal(sink) + |window|
    }

    constructor ()
      ensures Valid() && window == [] && sink == [] && rawBuffer == [] && messagesParsed == 0
    {
      buffer, messageCounts, rawBuffer := map[], map[], [];
      messagesParsed, sink, window := 0, [], [];
    }

    /**
     * Merges one message: other aircraft keep their entries, and whatever messages the
     * aircraft's entry summarised, it now summarises them and this one.
     */
    method MergeIntoBuffer(p: AircraftPosition)
      modifies this`buffer
      ensures buffer.Keys == old(buffer).Keys + {p.hex}
      ensures forall hex | hex in old(buffer) && hex != p.hex :: buffer[hex] == old(buffer)[hex]
      ensures p.hex !in old(buffer) ==> Summarises(buffer[p.hex], [p])
      ensures p.hex in old(buffer) ==>
        forall ms | ms != [] && Summarises(old(buffer)[p.hex], ms) :: Summarises(buffer[p.hex], ms + [p])
      ensures buffer == MergedInto(old(buffer), p)
    {
      hide Summarises;
      if p.hex in buffer {
        forall ms | ms != [] && Summarises(buffer[p.hex], ms) ensures Summarises(Merged(buffer[p.hex], p), ms + [p]) {
          MergedSummarises(buffer[p.hex], ms, p);
        }
        buffer := buffer[p.hex := Merged(buffer[p.hex], p)];
      } else {
        FirstSummarises(p);
        buffer := buffer[p.hex := p];
      }
    }

    method Absorb(line: Line)
      requires Valid()
      modifies this`buffer, this`messageCounts, this`rawBuffer, this`messagesParsed, this`window
      ensures Valid()
      ensures rawBuffer == old(rawBuffer) + if line.raw.Some? then [line.raw.value] else []
      ensures window == old(window) + if line.position.Some? then [line.position.value] else []
      ensures messagesParsed == old(messagesParsed) + if line.position.Some? then 1 else 0
    {
      hide BufferOf, MessagesOf, MergedInto, EmittedTotal, Summarises;
      if line.raw.Some? {
        rawBuffer := rawBuffer + [line.raw.value];
      }
      if line.position.Some? {
        var p := line.position.value;
        messagesParsed := messagesParsed + 1;
        AbsorbOne(window, p);
        messageCounts := messageCounts[p.hex := (if p.hex in messageCounts then messageCounts[p.hex] else 0) + 1];
        MergeIntoBuffer(p);
        window := window + [p];
      }
    }

    /** Hands the buffered aircraft on, in whatever order the map drains, and empties the window. */
    method Flush()
      requires Valid()
      modifies this`buffer, this`messageCounts, this`rawBuffer, this`sink, this`window
      ensures Valid() && window == [] && buffer == map[] && messageCounts == map[] && rawBuffer == []
      ensures old(window) == [] ==> sink == old(sink)
      ensures old(window) != [] ==>
        |sink| == |old(sink)| + 1 && sink[..|old(sink)|] == old(sink) && IsBatch(sink[|old(sink)|], old(window))
      ensures old(window) != [] ==>
        var batch := sink[|old(sink)|];
        && (forall i | 0 <= i < |batch| ::
              && MessagesOf(old(window), batch[i].hex) != []
              && Summarises(batch[i], MessagesOf(old(window), batch[i].hex))
              && batch[i].messageCount == |MessagesOf(old(window), batch[i].hex)|)
        && (forall p | p in old(window) :: exists i :: 0 <= i < |batch| && batch[i].hex == p.hex)
        && (forall i, j | 0 <= i < j < |batch| :: batch[i].hex != batch[j].hex)
    {
      hide BufferOf, MessagesOf, Summarises, TotalMessages, IsBatch;
      if buffer == map[] {
        NoWindow(window);
      } else {
        var batch := DrainBuffer();
        BatchAccountsForWindow(batch, window);
        BatchMeans(batch, window);
        sink := sink + [batch];
        assert sink[..|old(sink)|] == old(sink);
      }
      window := [];
      rawBuffer := [];
      NoWindow([]);
    }

    method DrainBuffer() returns (batch: seq<AircraftPosition>)
      requires Valid()
      modifies this`buffer, this`messageCounts
      ensures IsBatch(batch, window)
      ensures buffer == map[] && messageCounts == map[]
    {
      hide BufferOf, MessagesOf, Draining, IsBatch;
      batch := [];
      ghost var at: map<string, nat> := map[];
      DrainStart(window);
      while buffer != map[]
        invariant Draining(window, buffer.Keys, batch, at)
        invariant buffer.Keys <= BufferOf(window).Keys && messageCounts.Keys == buffer.Keys
        invariant forall hex | hex in buffer ::
          buffer[hex] == BufferOf(window)[hex] && messageCounts[hex] == |MessagesOf(window, hex)|
        decreases |buffer|
      {
        var hex := SomeKey(buffer);
        var p := buffer[hex];
        KeysAreHexes(window, hex);
        DrainStep(window, buffer.Keys, batch, at, hex);
        if p.hex in messageCounts {
          p := p.(messageCount := messageCounts[p.hex]);
          messageCounts := messageCounts - {p.hex};
        }
        assert buffer.Keys - {hex} == (buffer - {hex}).Keys;
        buffer := buffer - {hex};
        at := at[hex := |batch|];
        batch := batch + [p];
      }
      DrainEnd(window, batch, at);
    }
  }
}

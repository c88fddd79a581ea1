/** What the multipart driver means: its result against the logical stream of outputs, the
    agreement of its two ways of sizing buffers, and what a failed run reports. */
module MultipartProofs {
  import opened Wrappers
  import opened Bytes
  import opened CInterface
  import opened Multipart

  /** The stream with buffers and size queries forgotten: chunks i up to n, one after another. */
  datatype Stream<W> = Flows(world: W, data: seq<Byte>) | Breaks

  function Feed<W>(update: Update<W>, w: W, chunks: seq<seq<Byte>>, i: nat, n: nat): Stream<W>
    requires i <= n <= |chunks|
    decreases n - i
  {
    if i == n then Flows(w, [])
    else
      match update(chunks[i]).run(w)
      case Failed(_, _) => Breaks
      case Done(next, output) =>
        match Feed(update, next, chunks, i + 1, n)
        case Breaks => Breaks
        case Flows(end, data) => Flows(end, output + data)
  }

  ghost predicate Sound<W(!new)>(update: Update<W>, final: Operation<W, Byte>)
  {
    && (forall chunk, w :: SoundAt(update(chunk), w))
    && (forall w :: SoundAt(final, w))
  }

  /** Every chunk that gets processed has a buffer its output fits. */
  ghost predicate Ample<W>(update: Update<W>, w: W, chunks: seq<seq<Byte>>, sizes: seq<nat>, i: nat)
    requires i <= |chunks|
    decreases |chunks| - i
  {
    i < |chunks| ==>
      && Provided(sizes, i)
      && (update(chunks[i]).run(w).Done? ==>
            && Fits(Room(sizes, i), |update(chunks[i]).run(w).output|)
            && Ample(update, update(chunks[i]).run(w).next, chunks, sizes, i + 1))
  }

  lemma {:induction false} AdvanceFollowsStream<W(!new)>(update: Update<W>, final: Operation<W, Byte>, w: W,
                                                         chunks: seq<seq<Byte>>, sizes: seq<nat>, i: nat)
    requires i <= |chunks| && Sound(update, final)
    ensures var p, s := Advance(update, w, chunks, sizes, i), Feed(update, w, chunks, i, |chunks|);
            && (p.count == |chunks| <==> s.Flows? && Ample(update, w, chunks, sizes, i))
            && (p.count == |chunks| ==> p.world == s.world && p.data == s.data)
    decreases |chunks| - i
  {
    if i < |chunks| && Provided(sizes, i) {
      var op := update(chunks[i]);
      assert SoundAt(op, w);
      ExchangeMeaning(op, w, Room(sizes, i));
      if op.run(w).Done? {
        AdvanceFollowsStream(update, final, op.run(w).next, chunks, sizes, i + 1);
      }
    }
  }

  /** The driver returns CKR_OK exactly when the logical stream runs to its end and every
      output has room; what it then returns is the whole stream, in order. */
  lemma DriveMeaning<W(!new)>(update: Update<W>, final: Operation<W, Byte>, w: W, chunks: seq<seq<Byte>>,
                       sizes: seq<nat>)
    requires Sound(update, final)
    ensures var r, s := Drive(update, final, w, chunks, sizes), Feed(update, w, chunks, 0, |chunks|);
            && (r.Returned? && r.code == CKR_OK <==>
                  && s.Flows? && final.run(s.world).Done?
                  && Ample(update, w, chunks, sizes, 0) && Fits(FinalRoom(sizes), |final.run(s.world).output|))
            && (r.Returned? && r.code == CKR_OK ==>
                  r.data == s.data + final.run(s.world).output && r.world == final.run(s.world).next)
  {
    AdvanceFollowsStream(update, final, w, chunks, sizes, 0);
    var p := Advance(update, w, chunks, sizes, 0);
    assert SoundAt(final, p.world);
    ExchangeMeaning(final, p.world, FinalRoom(sizes));
    if p.count < |chunks| && Provided(sizes, p.count) {
      AdvanceStops(update, w, chunks, sizes, 0);
    }
  }

  /** The loop stops only at the end, for want of a buffer, or at a chunk that is refused. */
  lemma {:induction false} AdvanceStops<W>(update: Update<W>, w: W, chunks: seq<seq<Byte>>, sizes: seq<nat>, i: nat)
    requires i <= |chunks|
    ensures var p := Advance(update, w, chunks, sizes, i);
            && (p.count < |chunks| && Provided(sizes, p.count) ==>
                  Exchange(update(chunks[p.count]), p.world, Room(sizes, p.count)).code != CKR_OK)
            && Feed(update, w, chunks, i, p.count) == Flows(p.world, p.data)
    decreases |chunks| - i
  {
    if i < |chunks| && Provided(sizes, i) {
      var r := Exchange(update(chunks[i]), w, Room(sizes, i));
      if r.code == CKR_OK {
        AdvanceStops(update, r.world, chunks, sizes, i + 1);
      }
    }
  }

  lemma {:induction false} AdvanceIgnoresAmpleSizes<W(!new)>(update: Update<W>, final: Operation<W, Byte>, w: W,
                                                             chunks: seq<seq<Byte>>, sizes: seq<nat>, i: nat)
    requires i <= |chunks| && Sound(update, final) && Ample(update, w, chunks, sizes, i)
    ensures Advance(update, w, chunks, sizes, i) == Advance(update, w, chunks, [], i)
    decreases |chunks| - i
  {
    if i < |chunks| {
      var op := update(chunks[i]);
      assert SoundAt(op, w);
      ExchangeMeaning(op, w, Room(sizes, i));
      ExchangeMeaning(op, w, None);
      if op.run(w).Done? {
        AdvanceIgnoresAmpleSizes(update, final, op.run(w).next, chunks, sizes, i + 1);
      }
    }
  }

  /** Buffers given in advance and large enough make no difference: both modes succeed on the
      same inputs with the same bytes and state, and both fail with the same partial data. */
  lemma ModesAgree<W(!new)>(update: Update<W>, final: Operation<W, Byte>, w: W, chunks: seq<seq<Byte>>, sizes: seq<nat>)
    requires Sound(update, final) && Ample(update, w, chunks, sizes, 0)
    requires var s := Feed(update, w, chunks, 0, |chunks|);
             s.Flows? && final.run(s.world).Done? ==> Fits(FinalRoom(sizes), |final.run(s.world).output|)
    ensures var given, queried := Drive(update, final, w, chunks, sizes), Drive(update, final, w, chunks, []);
            && given.Returned? && queried.Returned? && given.data == queried.data
            && (given.code == CKR_OK <==> queried.code == CKR_OK)
            && (given.code == CKR_OK ==> given == queried)
  {
    AdvanceIgnoresAmpleSizes(update, final, w, chunks, sizes, 0);
    AdvanceStops(update, w, chunks, [], 0);
    AmpleProvides(update, w, chunks, sizes, 0);
    AmpleWithoutSizes(update, w, chunks, 0);
    DriveMeaning(update, final, w, chunks, sizes);
    DriveMeaning(update, final, w, chunks, []);
  }

  lemma {:induction false} AmpleWithoutSizes<W>(update: Update<W>, w: W, chunks: seq<seq<Byte>>, i: nat)
    requires i <= |chunks|
    ensures Ample(update, w, chunks, [], i)
    decreases |chunks| - i
  {
    if i < |chunks| && update(chunks[i]).run(w).Done? {
      AmpleWithoutSizes(update, update(chunks[i]).run(w).next, chunks, i + 1);
    }
  }

  lemma {:induction false} AmpleProvides<W>(update: Update<W>, w: W, chunks: seq<seq<Byte>>, sizes: seq<nat>, i: nat)
    requires i <= |chunks| && Ample(update, w, chunks, sizes, i)
    ensures var p := Advance(update, w, chunks, sizes, i); p.count < |chunks| ==> Provided(sizes, p.count)
    decreases |chunks| - i
  {
    if i < |chunks| && update(chunks[i]).run(w).Done? && Exchange(update(chunks[i]), w, Room(sizes, i)).code == CKR_OK {
      AmpleProvides(update, update(chunks[i]).run(w).next, chunks, sizes, i + 1);
    }
  }

  /** A failed run: data is exactly the outputs of the chunks before the one refused, the code
      is that refusal's, Final has acted once, in the state the refusal left, with 0xffff bytes
      of room; IndexError is raised exactly when accepted chunks outrun the buffer list. */
  lemma FailureReport<W>(update: Update<W>, final: Operation<W, Byte>, w: W, chunks: seq<seq<Byte>>, sizes: seq<nat>)
    ensures var k, r := Advance(update, w, chunks, sizes, 0).count, Drive(update, final, w, chunks, sizes);
            var s := Feed(update, w, chunks, 0, k);
            && s.Flows?
            && (r.IndexError? <==> k < |chunks| && sizes != [] && |sizes| <= k)
            && (k < |chunks| && Provided(sizes, k) ==>
                  var refusal := Exchange(update(chunks[k]), s.world, Room(sizes, k));
                  && refusal.code != CKR_OK
                  && r == Returned(refusal.code, s.data, Answer(final, refusal.world, Some(MAX_BUFFER)).world))
            && (k == |chunks| && r.code != CKR_OK ==> r.data == s.data)
  {
    AdvanceStops(update, w, chunks, sizes, 0);
  }
}

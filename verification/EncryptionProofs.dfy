/** Encryption and decryption as a caller sees them: what comes back, what is left active on
    the token, and that decryption undoes encryption however the data is cut. */
module EncryptionProofs {
  import opened Wrappers
  import opened Bytes
  import opened CInterface
  import opened Chunks
  import opened Multipart
  import opened MultipartProofs
  import opened Encryption

  /** The token's size queries suffice (section 11.2). */
  ghost predicate SoundCipher<S(!new)>(c: Cipher<S>)
  {
    && (forall s, chunk :: c.update(s, chunk).Next? ==>
          c.updateSize(s, chunk).Guess? && |c.update(s, chunk).output| <= c.updateSize(s, chunk).size)
    && (forall s :: c.finish(s).Ended? ==> c.finishSize(s).Guess? && |c.finish(s).output| <= c.finishSize(s).size)
    && (forall s, data :: c.single(s, data).Ended? ==>
          c.singleSize(s, data).Guess? && |c.single(s, data).output| <= c.singleSize(s, data).size)
  }

  lemma SoundOperations<S(!new)>(c: Cipher<S>)
    requires SoundCipher(c)
    ensures Sound(UpdateOp(c), FinalOp(c))
    ensures forall data, w :: SoundAt(SingleOp(c, data), w)
  {
    forall chunk, w ensures SoundAt(UpdateOp(c)(chunk), w) {
      if w.Active? {
        assert c.update(w.s, chunk).Next? ==> c.updateSize(w.s, chunk).Guess?;
      }
    }
    forall w ensures SoundAt(FinalOp(c), w) {
      if w.Active? {
        assert c.finish(w.s).Ended? ==> c.finishSize(w.s).Guess?;
      }
    }
    forall data, w ensures SoundAt(SingleOp(c, data), w) {
      if w.Active? {
        assert c.single(w.s, data).Ended? ==> c.singleSize(w.s, data).Guess?;
      }
    }
  }

  /** An error other than a short buffer ends the operation. */
  ghost predicate FailureEnds<S>(op: Operation<Session<S>, Byte>, w: Session<S>)
  {
    (op.run(w).Failed? ==> op.run(w).next == Idle) && (op.estimate(w).Refused? ==> op.estimate(w).next == Idle)
  }

  lemma TokenEndsOnFailure<S>(c: Cipher<S>, data: seq<Byte>, w: Session<S>)
    ensures FailureEnds(UpdateOp(c)(data), w) && FailureEnds(FinalOp(c), w) && FailureEnds(SingleOp(c, data), w)
  {
    if w.Active? {
      assert UpdateOp(c)(data).estimate(w) == AfterGuess(c.updateSize(w.s, data));
      assert FinalOp(c).estimate(w) == AfterGuess(c.finishSize(w.s));
      assert SingleOp(c, data).run(w) == AfterEnding(c.single(w.s, data));
      assert SingleOp(c, data).estimate(w) == AfterGuess(c.singleSize(w.s, data));
    }
  }

  lemma RefusalEnds<S>(op: Operation<Session<S>, Byte>, w: Session<S>, room: Option<nat>)
    requires FailureEnds(op, w)
    ensures var r := Exchange(op, w, room); r.code != CKR_OK && r.code != CKR_BUFFER_TOO_SMALL ==> r.world == Idle
  {
    if room.None? && op.estimate(w).Sized? {
      assert Exchange(op, w, room) == Answer(op, w, Some(op.estimate(w).size));
    }
  }

  // ----- Single-part operations -----

  /** However much the NULL query overestimates, the caller gets the exact output. Only a
      buffer given in advance and too small leaves the operation active. */
  lemma SinglePart<S(!new)>(c: Cipher<S>, data: seq<Byte>, room: Option<nat>)
    requires SoundCipher(c) && c.init.Started?
    ensures var r, e := Respond(c, Idle, Whole(data, room)), c.single(c.init.s, data);
            && r.Response?
            && (r.code == CKR_OK <==> e.Ended? && Fits(room, |e.output|))
            && r.data == (if r.code == CKR_OK then Some(e.output) else None)
            && (r.session.Active? <==> e.Ended? && !Fits(room, |e.output|))
            && (r.session.Active? ==> r == Response(CKR_BUFFER_TOO_SMALL, None, Active(c.init.s)))
  {
    SoundOperations(c);
    ExchangeMeaning(SingleOp(c, data), Active(c.init.s), room);
    TokenEndsOnFailure(c, data, Active(c.init.s));
    RefusalEnds(SingleOp(c, data), Active(c.init.s), room);
  }

  // ----- What is left active -----

  /** How many chunks the cipher takes, and where it then is: up to the first one that breaks
      it, whose output does not fit its buffer, or that has no buffer. */
  function Reached<S>(c: Cipher<S>, s: S, chunks: seq<seq<Byte>>, sizes: seq<nat>, i: nat): (nat, S)
    requires i <= |chunks|
    decreases |chunks| - i
  {
    if i == |chunks| || !Provided(sizes, i) then (i, s)
    else
      match c.update(s, chunks[i])
      case Broken(_) => (i, s)
      case Next(t, output) =>
        if Fits(Room(sizes, i), |output|) then Reached(c, t, chunks, sizes, i + 1) else (i, s)
  }

  lemma {:induction false} AdvanceReaches<S(!new)>(c: Cipher<S>, s: S, chunks: seq<seq<Byte>>, sizes: seq<nat>, i: nat)
    requires SoundCipher(c) && i <= |chunks|
    ensures var p, (k, t) := Advance(UpdateOp(c), Active(s), chunks, sizes, i), Reached(c, s, chunks, sizes, i);
            && p.count == k <= |chunks| && p.world == Active(t)
            && (k < |chunks| && Provided(sizes, k) && c.update(t, chunks[k]).Next? ==>
                  !Fits(Room(sizes, k), |c.update(t, chunks[k]).output|))
    decreases |chunks| - i
  {
    if i < |chunks| && Provided(sizes, i) {
      var op := UpdateOp(c)(chunks[i]);
      SoundOperations(c);
      assert SoundAt(op, Active(s));
      ExchangeMeaning(op, Active(s), Room(sizes, i));
      if c.update(s, chunks[i]).Next? {
        AdvanceReaches(c, c.update(s, chunks[i]).s, chunks, sizes, i + 1);
      }
    }
  }

  /** The buffers given leave the operation active: the list is too short; all chunks are taken
      but the output of Final does not fit; or a chunk's output does not fit, and what Final
      still has to output is more than the 0xffff bytes with which it is then called. */
  predicate TooLittleRoom<S>(c: Cipher<S>, s: S, chunks: seq<seq<Byte>>, sizes: seq<nat>)
  {
    var (k, t) := Reached(c, s, chunks, sizes, 0);
    if k >= |chunks| then c.finish(t).Ended? && !Fits(FinalRoom(sizes), |c.finish(t).output|)
    else if !Provided(sizes, k) then true
    else c.update(t, chunks[k]).Next? && c.finish(t).Ended? && |c.finish(t).output| > MAX_BUFFER
  }

  /** The driver leaves the operation active exactly then; never on CKR_OK, and never when sizes
      are queried. */
  lemma OperationLeftActive<S(!new)>(c: Cipher<S>, s: S, chunks: seq<seq<Byte>>, sizes: seq<nat>)
    requires SoundCipher(c)
    ensures var r := Drive(UpdateOp(c), FinalOp(c), Active(s), chunks, sizes);
            && (r.world.Active? <==> TooLittleRoom(c, s, chunks, sizes))
            && (r.Returned? && r.code == CKR_OK ==> r.world == Idle)
            && (sizes == [] ==> r.Returned? && r.code != CKR_BUFFER_TOO_SMALL && r.world == Idle)
  {
    SoundOperations(c);
    var update, final := UpdateOp(c), FinalOp(c);
    var (k, t) := Reached(c, s, chunks, sizes, 0);
    AdvanceReaches(c, s, chunks, sizes, 0);
    if k == |chunks| {
      ExchangeMeaning(final, Active(t), FinalRoom(sizes));
      TokenEndsOnFailure(c, [], Active(t));
      RefusalEnds(final, Active(t), FinalRoom(sizes));
    } else if Provided(sizes, k) {
      ExchangeMeaning(update(chunks[k]), Active(t), Room(sizes, k));
      TokenEndsOnFailure(c, chunks[k], Active(t));
      RefusalEnds(update(chunks[k]), Active(t), Room(sizes, k));
    }
  }

  // ----- Many operations in one session -----

  datatype Job<!S> = Job(cipher: Cipher<S>, request: Request)

  predicate Queries(request: Request)
  {
    match request
    case Whole(_, room) => room == None
    case Pieces(_, sizes) => sizes == []
  }

  /** The session after a series of encryptions and decryptions, in order. */
  function After<S>(session: Session<S>, jobs: seq<Job<S>>): Session<S>
  {
    if jobs == [] then session
    else Respond(jobs[|jobs| - 1].cipher, After(session, jobs[..|jobs| - 1]), jobs[|jobs| - 1].request).session
  }

  /** As long as sizes are queried, no series of operations, failed ones included, leaves
      anything active, so each one starts afresh and is never refused for a predecessor. */
  lemma {:induction false} QueriedJobsLeaveNothingActive<S(!new)>(jobs: seq<Job<S>>)
    requires forall i :: 0 <= i < |jobs| ==> SoundCipher(jobs[i].cipher) && Queries(jobs[i].request)
    ensures After(Idle, jobs) == Idle
  {
    if jobs != [] {
      var job := jobs[|jobs| - 1];
      QueriedJobsLeaveNothingActive(jobs[..|jobs| - 1]);
      assert SoundCipher(job.cipher) && Queries(job.request);
      if job.cipher.init.Started? {
        match job.request
        case Whole(data, room) => SinglePart(job.cipher, data, room);
        case Pieces(chunks, sizes) => OperationLeftActive(job.cipher, job.cipher.init.s, chunks, sizes);
      }
    }
  }

  // ----- Cutting data into pieces makes no difference -----

  /** Feeding two pieces one after the other is feeding them at once. */
  ghost predicate Streaming<S(!new)>(c: Cipher<S>)
  {
    && (forall s :: c.update(s, []) == Next(s, []))
    && (forall s, a, b :: Composes(c, s, a, b))
  }

  ghost predicate Composes<S>(c: Cipher<S>, s: S, a: seq<Byte>, b: seq<Byte>)
  {
    match c.update(s, a)
    case Broken(_) => c.update(s, a + b).Broken?
    case Next(t, first) =>
      match c.update(t, b)
      case Broken(_) => c.update(s, a + b).Broken?
      case Next(u, second) => c.update(s, a + b) == Next(u, first + second)
  }

  /** All the data at once, then Final. */
  function AllAtOnce<S>(c: Cipher<S>, s: S, data: seq<Byte>): Ending
  {
    match c.update(s, data)
    case Broken(code) => Aborted(code)
    case Next(t, output) =>
      match c.finish(t)
      case Aborted(code) => Aborted(code)
      case Ended(rest) => Ended(output + rest)
  }

  lemma {:induction false} FeedIsOneUpdate<S(!new)>(c: Cipher<S>, s: S, chunks: seq<seq<Byte>>, i: nat)
    requires Streaming(c) && i <= |chunks|
    ensures var f, u := Feed(UpdateOp(c), Active(s), chunks, i, |chunks|), c.update(s, Join(chunks[i..]));
            && (f.Flows? <==> u.Next?)
            && (f.Flows? ==> f == Flows(Active(u.s), u.output))
    decreases |chunks| - i
  {
    if i == |chunks| {
      assert chunks[i..] == [];
    } else {
      assert chunks[i..][1..] == chunks[i + 1..];
      assert Join(chunks[i..]) == chunks[i] + Join(chunks[i + 1..]);
      assert Composes(c, s, chunks[i], Join(chunks[i + 1..]));
      if c.update(s, chunks[i]).Next? {
        FeedIsOneUpdate(c, c.update(s, chunks[i]).s, chunks, i + 1);
      }
    }
  }

  /** Multipart processing of any pieces succeeds exactly when their concatenation can be
      processed at once and every output has room, with the very same bytes. */
  lemma PiecesAreAllAtOnce<S(!new)>(c: Cipher<S>, chunks: seq<seq<Byte>>, sizes: seq<nat>)
    requires SoundCipher(c) && Streaming(c) && c.init.Started?
    ensures var r, e := Respond(c, Idle, Pieces(chunks, sizes)), AllAtOnce(c, c.init.s, Join(chunks));
            && (r.Response? && r.code == CKR_OK ==> e.Ended? && r == Response(CKR_OK, Some(e.output), Idle))
            && (sizes == [] ==> r.Response? && (r.code == CKR_OK <==> e.Ended?))
  {
    var s := c.init.s;
    SoundOperations(c);
    assert chunks[0..] == chunks;
    FeedIsOneUpdate(c, s, chunks, 0);
    DriveMeaning(UpdateOp(c), FinalOp(c), Active(s), chunks, sizes);
    OperationLeftActive(c, s, chunks, sizes);
    AmpleWithoutSizes(UpdateOp(c), Active(s), chunks, 0);
  }

  /** Decryption undoes encryption of anything encryption accepts. */
  ghost predicate Inverts<S>(enc: Cipher<S>, dec: Cipher<S>)
  {
    && enc.init.Started? && dec.init.Started?
    && forall data :: Undoes(dec, enc, data)
  }

  ghost predicate Undoes<S>(dec: Cipher<S>, enc: Cipher<S>, data: seq<Byte>)
    requires enc.init.Started? && dec.init.Started?
  {
    var e := AllAtOnce(enc, enc.init.s, data);
    e.Ended? ==> AllAtOnce(dec, dec.init.s, e.output) == Ended(data)
  }

  /** Encrypt data cut into blocks of any size, whether into given or queried buffers; cut the
      result into blocks of any other size and decrypt: the data comes back. */
  lemma RoundTrip<S(!new)>(enc: Cipher<S>, dec: Cipher<S>, data: seq<Byte>, b1: nat, b2: nat, sizes: seq<nat>)
    requires SoundCipher(enc) && SoundCipher(dec) && Streaming(enc) && Streaming(dec) && Inverts(enc, dec)
    requires b1 > 0 && b2 > 0
    ensures var e := Respond(enc, Idle, Pieces(Split(data, b1), sizes));
            e.Response? && e.code == CKR_OK ==>
              Respond(dec, Idle, Pieces(Split(e.data.value, b2), [])) == Response(CKR_OK, Some(data), Idle)
  {
    JoinSplit(data, b1);
    PiecesAreAllAtOnce(enc, Split(data, b1), sizes);
    assert Undoes(dec, enc, data);
    var e := Respond(enc, Idle, Pieces(Split(data, b1), sizes));
    if e.Response? && e.code == CKR_OK {
      JoinSplit(e.data.value, b2);
      PiecesAreAllAtOnce(dec, Split(e.data.value, b2), []);
    }
  }

  /** The same with the decryption's buffers given: whenever they are large enough for it to
      succeed, it yields the data. */
  lemma RoundTripGivenBuffers<S(!new)>(enc: Cipher<S>, dec: Cipher<S>, data: seq<Byte>, b1: nat, b2: nat,
                                       sizes1: seq<nat>, sizes2: seq<nat>)
    requires SoundCipher(enc) && SoundCipher(dec) && Streaming(enc) && Streaming(dec) && Inverts(enc, dec)
    requires b1 > 0 && b2 > 0
    ensures var e := Respond(enc, Idle, Pieces(Split(data, b1), sizes1));
            e.Response? && e.code == CKR_OK ==>
              var chunks := Split(e.data.value, b2);
              var f := Feed(UpdateOp(dec), Active(dec.init.s), chunks, 0, |chunks|);
              && f.Flows? && FinalOp(dec).run(f.world).Done?
              && (Ample(UpdateOp(dec), Active(dec.init.s), chunks, sizes2, 0) &&
                  Fits(FinalRoom(sizes2), |FinalOp(dec).run(f.world).output|) ==>
                    Respond(dec, Idle, Pieces(chunks, sizes2)) == Response(CKR_OK, Some(data), Idle))
  {
    RoundTrip(enc, dec, data, b1, b2, sizes1);
    var e := Respond(enc, Idle, Pieces(Split(data, b1), sizes1));
    if e.Response? && e.code == CKR_OK {
      var chunks := Split(e.data.value, b2);
      SoundOperations(dec);
      DriveMeaning(UpdateOp(dec), FinalOp(dec), Active(dec.init.s), chunks, []);
      if Ample(UpdateOp(dec), Active(dec.init.s), chunks, sizes2, 0) {
        var f := Feed(UpdateOp(dec), Active(dec.init.s), chunks, 0, |chunks|);
        if Fits(FinalRoom(sizes2), |FinalOp(dec).run(f.world).output|) {
          ModesAgree(UpdateOp(dec), FinalOp(dec), Active(dec.init.s), chunks, sizes2);
        }
      }
    }
  }
}

/** What comes back from encryption and decryption, for every request, by what the cipher does:
    the code above all. */
module EncryptionAnswers {
  import opened Wrappers
  import opened Bytes
  import opened CInterface
  import opened Multipart
  import opened MultipartProofs
  import opened MultipartCases
  import opened Encryption

  /** Before there is an operation: a second one is refused, and so is what Init refuses. */
  lemma RefusedAtOnce<S>(c: Cipher<S>, session: Session<S>, request: Request)
    ensures session.Active? ==> Respond(c, session, request) == Response(CKR_OPERATION_ACTIVE, None, session)
    ensures session.Idle? && c.init.NotStarted? ==> Respond(c, session, request) == Response(c.init.code, None, Idle)
  {
  }

  /** Data in one piece, into a buffer given. */
  lemma WholeIntoBuffer<S>(c: Cipher<S>, data: seq<Byte>, n: nat)
    requires c.init.Started?
    ensures var s, r := c.init.s, Respond(c, Idle, Whole(data, Some(n)));
            match c.single(s, data)
            case Aborted(code) => r == Response(code, None, Idle)
            case Ended(output) =>
              r == if |output| <= n then Response(CKR_OK, Some(output), Idle)
                   else Response(CKR_BUFFER_TOO_SMALL, None, Active(s))
  {
    assert SingleOp(c, data).run(Active(c.init.s)) == AfterEnding(c.single(c.init.s, data));
  }

  /** Data in one piece, after a query. */
  lemma WholeQueried<S>(c: Cipher<S>, data: seq<Byte>)
    requires c.init.Started?
    ensures var s, r := c.init.s, Respond(c, Idle, Whole(data, None));
            match (c.singleSize(s, data), c.single(s, data))
            case (NoGuess(code), _) => r == Response(code, None, Idle)
            case (Guess(_), Aborted(code)) => r == Response(code, None, Idle)
            case (Guess(n), Ended(output)) =>
              r == if |output| <= n then Response(CKR_OK, Some(output), Idle)
                   else Response(CKR_BUFFER_TOO_SMALL, None, Active(s))
  {
    var op := SingleOp(c, data);
    assert op.run(Active(c.init.s)) == AfterEnding(c.single(c.init.s, data));
    assert op.estimate(Active(c.init.s)) == AfterGuess(c.singleSize(c.init.s, data));
    QueriedExchange(op, Active(c.init.s));
  }

  // ----- Data in pieces -----

  /** The cipher after n chunks, and its output until then; None if one of them breaks it. */
  function Fed<S>(c: Cipher<S>, s: S, chunks: seq<seq<Byte>>, n: nat): Option<(S, seq<Byte>)>
    requires n <= |chunks|
  {
    if n == 0 then Some((s, []))
    else
      match Fed(c, s, chunks, n - 1)
      case None => None
      case Some((t, data)) =>
        match c.update(t, chunks[n - 1])
        case Broken(_) => None
        case Next(u, output) => Some((u, data + output))
  }

  lemma {:induction false} FedIsFeed<S>(c: Cipher<S>, s: S, chunks: seq<seq<Byte>>, n: nat)
    requires n <= |chunks|
    ensures Feed(UpdateOp(c), Active(s), chunks, 0, n) ==
            match Fed(c, s, chunks, n)
            case None => Breaks
            case Some((t, data)) => Flows(Active(t), data)
  {
    if n > 0 {
      FedIsFeed(c, s, chunks, n - 1);
      FeedStep(UpdateOp(c), Active(s), chunks, 0, n - 1);
    }
  }

  /** The session that the Final leaves with which a failed run ends. */
  function Cleared<S>(c: Cipher<S>, t: S): Session<S>
  {
    if c.finish(t).Ended? && |c.finish(t).output| > 0xffff then Active(t) else Idle
  }

  lemma ClearedIsCleanedUp<S>(c: Cipher<S>, t: S)
    ensures CleanedUp(FinalOp(c), Active(t)) == Cleared(c, t) && CleanedUp(FinalOp(c), Idle) == Idle
  {
    assert FinalOp(c).run(Active(t)) == AfterEnding(c.finish(t));
  }

  /** The first k chunks have a buffer each, and each output fits its own. */
  ghost predicate FedGiven<S>(c: Cipher<S>, s: S, chunks: seq<seq<Byte>>, sizes: seq<nat>, k: nat)
  {
    && k <= |chunks| && k <= |sizes|
    && forall i :: 0 <= i < k ==>
         match Fed(c, s, chunks, i)
         case None => false
         case Some((t, _)) => c.update(t, chunks[i]).Next? && |c.update(t, chunks[i]).output| <= sizes[i]
  }

  /** There is a first chunk that goes wrong, or there is none such. */
  lemma {:induction false} FirstNotFed<S>(c: Cipher<S>, s: S, chunks: seq<seq<Byte>>, sizes: seq<nat>, i: nat)
      returns (k: nat)
    requires FedGiven(c, s, chunks, sizes, i)
    ensures FedGiven(c, s, chunks, sizes, k)
    ensures k < |chunks| && k < |sizes| ==> !FedGiven(c, s, chunks, sizes, k + 1)
    decreases |chunks| - i
  {
    if i < |chunks| && i < |sizes| && FedGiven(c, s, chunks, sizes, i + 1) {
      k := FirstNotFed(c, s, chunks, sizes, i + 1);
    } else {
      k := i;
    }
  }

  lemma FedGivenIsTaken<S>(c: Cipher<S>, s: S, chunks: seq<seq<Byte>>, sizes: seq<nat>, k: nat)
    requires FedGiven(c, s, chunks, sizes, k)
    ensures TakenGiven(UpdateOp(c), Active(s), chunks, sizes, k)
  {
    forall i | 0 <= i < k
      ensures match OutcomeAt(UpdateOp(c), Active(s), chunks, i)
              case Some(Done(_, output)) => |output| <= sizes[i]
              case _ => false
    {
      FedIsFeed(c, s, chunks, i);
    }
  }

  /** Data in pieces into given buffers, of which the first k chunks are taken: the first thing
      that goes wrong decides, and all output before it is returned. */
  lemma PiecesIntoBuffers<S>(c: Cipher<S>, chunks: seq<seq<Byte>>, sizes: seq<nat>, k: nat)
    requires c.init.Started? && sizes != [] && FedGiven(c, c.init.s, chunks, sizes, k)
    ensures Fed(c, c.init.s, chunks, k).Some?
    ensures var (t, data) := Fed(c, c.init.s, chunks, k).value;
            var r := Respond(c, Idle, Pieces(chunks, sizes));
            if k == |chunks| then
              match c.finish(t)
              case Aborted(code) => r == Response(code, Some(data), Idle)
              case Ended(last) =>
                r == if exists n :: n in sizes && |last| <= n then Response(CKR_OK, Some(data + last), Idle)
                     else Response(CKR_BUFFER_TOO_SMALL, Some(data), Active(t))
            else if k == |sizes| then r == Raised(Active(t))
            else
              match c.update(t, chunks[k])
              case Broken(code) => r == Response(code, Some(data), Idle)
              case Next(_, output) =>
                |output| > sizes[k] ==> r == Response(CKR_BUFFER_TOO_SMALL, Some(data), Cleared(c, t))
  {
    var s := c.init.s;
    FedGivenIsTaken(c, s, chunks, sizes, k);
    GivenBuffersDecide(UpdateOp(c), FinalOp(c), Active(s), chunks, sizes, k);
    FedIsFeed(c, s, chunks, k);
    var t := Fed(c, s, chunks, k).value.0;
    ClearedIsCleanedUp(c, t);
    assert FinalOp(c).run(Active(t)) == AfterEnding(c.finish(t));
  }

  /** For each of the first k chunks, a size is announced and the output fits it. */
  ghost predicate FedQueried<S>(c: Cipher<S>, s: S, chunks: seq<seq<Byte>>, k: nat)
  {
    && k <= |chunks|
    && forall i :: 0 <= i < k ==>
         match Fed(c, s, chunks, i)
         case None => false
         case Some((t, _)) =>
           && c.update(t, chunks[i]).Next? && c.updateSize(t, chunks[i]).Guess?
           && |c.update(t, chunks[i]).output| <= c.updateSize(t, chunks[i]).size
  }

  lemma {:induction false} FirstNotFedQueried<S>(c: Cipher<S>, s: S, chunks: seq<seq<Byte>>, i: nat) returns (k: nat)
    requires FedQueried(c, s, chunks, i)
    ensures FedQueried(c, s, chunks, k) && (k < |chunks| ==> !FedQueried(c, s, chunks, k + 1))
    decreases |chunks| - i
  {
    if i < |chunks| && FedQueried(c, s, chunks, i + 1) {
      k := FirstNotFedQueried(c, s, chunks, i + 1);
    } else {
      k := i;
    }
  }

  lemma FedQueriedIsTaken<S>(c: Cipher<S>, s: S, chunks: seq<seq<Byte>>, k: nat)
    requires FedQueried(c, s, chunks, k)
    ensures TakenQueried(UpdateOp(c), Active(s), chunks, k)
  {
    forall i | 0 <= i < k
      ensures match Feed(UpdateOp(c), Active(s), chunks, 0, i)
              case Breaks => false
              case Flows(v, _) =>
                match (UpdateOp(c)(chunks[i]).estimate(v), UpdateOp(c)(chunks[i]).run(v))
                case (Sized(n), Done(_, output)) => |output| <= n
                case _ => false
    {
      FedIsFeed(c, s, chunks, i);
    }
  }

  /** The same with sizes queried, where the query may go wrong too. */
  lemma PiecesQueried<S>(c: Cipher<S>, chunks: seq<seq<Byte>>, k: nat)
    requires c.init.Started? && FedQueried(c, c.init.s, chunks, k)
    ensures Fed(c, c.init.s, chunks, k).Some?
    ensures var (t, data) := Fed(c, c.init.s, chunks, k).value;
            var r := Respond(c, Idle, Pieces(chunks, []));
            if k == |chunks| then
              match (c.finishSize(t), c.finish(t))
              case (NoGuess(code), _) => r == Response(code, Some(data), Idle)
              case (Guess(_), Aborted(code)) => r == Response(code, Some(data), Idle)
              case (Guess(n), Ended(last)) =>
                r == if |last| <= n then Response(CKR_OK, Some(data + last), Idle)
                     else Response(CKR_BUFFER_TOO_SMALL, Some(data), Active(t))
            else
              match (c.updateSize(t, chunks[k]), c.update(t, chunks[k]))
              case (NoGuess(code), _) => r == Response(code, Some(data), Idle)
              case (Guess(_), Broken(code)) => r == Response(code, Some(data), Idle)
              case (Guess(n), Next(_, output)) =>
                |output| > n ==> r == Response(CKR_BUFFER_TOO_SMALL, Some(data), Cleared(c, t))
  {
    var s := c.init.s;
    FedQueriedIsTaken(c, s, chunks, k);
    QueriesDecide(UpdateOp(c), FinalOp(c), Active(s), chunks, k);
    FedIsFeed(c, s, chunks, k);
    var t := Fed(c, s, chunks, k).value.0;
    ClearedIsCleanedUp(c, t);
    if k == |chunks| {
      assert FinalOp(c).run(Active(t)) == AfterEnding(c.finish(t));
      assert FinalOp(c).estimate(Active(t)) == AfterGuess(c.finishSize(t));
    } else {
      assert UpdateOp(c)(chunks[k]).estimate(Active(t)) == AfterGuess(c.updateSize(t, chunks[k]));
    }
  }
}

/** The multipart driver's result, case by case, in terms of what the two C functions do when
    they are really carried out, and of the very sizes and estimates involved. */
module MultipartCases {
  import opened Wrappers
  import opened Bytes
  import opened CInterface
  import opened Multipart
  import opened MultipartProofs

  /** What carrying out chunk i does, once those before it have been; None if one of them fails. */
  function OutcomeAt<W>(update: Update<W>, w: W, chunks: seq<seq<Byte>>, i: nat): Option<Outcome<W, Byte>>
    requires i < |chunks|
  {
    match Feed(update, w, chunks, 0, i)
    case Flows(v, _) => Some(update(chunks[i]).run(v))
    case Breaks => None
  }

  lemma {:induction false} FeedStep<W>(update: Update<W>, w: W, chunks: seq<seq<Byte>>, i: nat, n: nat)
    requires i <= n < |chunks|
    ensures Feed(update, w, chunks, i, n + 1) ==
            match Feed(update, w, chunks, i, n)
            case Breaks => Breaks
            case Flows(v, data) =>
              match update(chunks[n]).run(v)
              case Failed(_, _) => Breaks
              case Done(next, output) => Flows(next, data + output)
    decreases n - i
  {
    match update(chunks[i]).run(w) {
      case Failed(_, _) =>
      case Done(next, output) =>
        if i < n {
          FeedStep(update, next, chunks, i + 1, n);
          match Feed(update, next, chunks, i + 1, n) {
            case Breaks =>
            case Flows(v, data) =>
              if update(chunks[n]).run(v).Done? {
                var last := update(chunks[n]).run(v).output;
                assert output + (data + last) == (output + data) + last;
              }
          }
        } else {
          assert output + [] == [] + output;
        }
    }
  }

  /** The first k chunks are taken: what remains is the run from there. */
  lemma {:induction false} AdvanceFrom<W>(update: Update<W>, w: W, chunks: seq<seq<Byte>>, sizes: seq<nat>, k: nat)
    requires k <= |chunks|
    requires forall i :: 0 <= i < k ==>
               Provided(sizes, i) && OutcomeAt(update, w, chunks, i).Some? &&
               Feed(update, w, chunks, 0, i).Flows? &&
               Takes(update(chunks[i]), Feed(update, w, chunks, 0, i).world, Room(sizes, i))
    ensures var s, p := Feed(update, w, chunks, 0, k), Advance(update, w, chunks, sizes, 0);
            && s.Flows?
            && var rest := Advance(update, s.world, chunks, sizes, k);
               p == Progress(rest.count, rest.world, s.data + rest.data)
  {
    if k == 0 {
      var p := Advance(update, w, chunks, sizes, 0);
      assert [] + p.data == p.data;
    } else {
      AdvanceFrom(update, w, chunks, sizes, k - 1);
      FeedStep(update, w, chunks, 0, k - 1);
      var s := Feed(update, w, chunks, 0, k - 1);
      var r := Exchange(update(chunks[k - 1]), s.world, Room(sizes, k - 1));
      TakesMeans(update(chunks[k - 1]), s.world, Room(sizes, k - 1));
      var rest := Advance(update, r.world, chunks, sizes, k);
      assert s.data + (r.output + rest.data) == (s.data + r.output) + rest.data;
    }
  }

  /** The operation succeeds: into a buffer given, or one of the size it announces. */
  predicate Takes<W>(op: Operation<W, Byte>, w: W, room: Option<nat>)
  {
    match op.run(w)
    case Failed(_, _) => false
    case Done(_, output) =>
      match room
      case Some(n) => |output| <= n
      case None => op.estimate(w).Sized? && |output| <= op.estimate(w).size
  }

  lemma TakesMeans<W>(op: Operation<W, Byte>, w: W, room: Option<nat>)
    ensures var r := Exchange(op, w, room);
            && (r.code == CKR_OK <==> Takes(op, w, room))
            && (Takes(op, w, room) ==> r.world == op.run(w).next && r.output == op.run(w).output)
  {
    if room.None? && op.estimate(w).Sized? {
      assert Exchange(op, w, room) == Answer(op, w, Some(op.estimate(w).size));
    }
  }

  /** The state that the Final leaves with which a failed run ends. */
  function CleanedUp<W>(final: Operation<W, Byte>, w: W): W
  {
    match final.run(w)
    case Failed(_, next) => next
    case Done(next, output) => if |output| <= 0xffff then next else w
  }

  // ----- Buffers given -----

  /** The first k chunks have a buffer each, and each output fits its own. */
  ghost predicate TakenGiven<W>(update: Update<W>, w: W, chunks: seq<seq<Byte>>, sizes: seq<nat>, k: nat)
  {
    && k <= |chunks| && k <= |sizes|
    && forall i :: 0 <= i < k ==>
         match OutcomeAt(update, w, chunks, i)
         case Some(Done(_, output)) => |output| <= sizes[i]
         case _ => false
  }

  /** What happens after the first k chunks, if these are taken. The largest buffer is for Final. */
  lemma GivenBuffersDecide<W>(update: Update<W>, final: Operation<W, Byte>, w: W, chunks: seq<seq<Byte>>,
                              sizes: seq<nat>, k: nat)
    requires sizes != [] && TakenGiven(update, w, chunks, sizes, k)
    ensures Feed(update, w, chunks, 0, k).Flows?
    ensures var s, r := Feed(update, w, chunks, 0, k), Drive(update, final, w, chunks, sizes);
            && (k == |chunks| ==>
                  match final.run(s.world)
                  case Failed(code, next) => r == Returned(code, s.data, next)
                  case Done(next, last) =>
                    r == if exists n :: n in sizes && |last| <= n then Returned(CKR_OK, s.data + last, next)
                         else Returned(CKR_BUFFER_TOO_SMALL, s.data, s.world))
            && (k < |chunks| && k == |sizes| ==> r == IndexError(s.world))
            && (k < |chunks| && k < |sizes| ==>
                  match update(chunks[k]).run(s.world)
                  case Failed(code, next) => r == Returned(code, s.data, CleanedUp(final, next))
                  case Done(_, output) =>
                    |output| > sizes[k] ==> r == Returned(CKR_BUFFER_TOO_SMALL, s.data, CleanedUp(final, s.world)))
  {
    AdvanceFrom(update, w, chunks, sizes, k);
    var s := Feed(update, w, chunks, 0, k);
    assert s.data + [] == s.data;
  }

  /** There is a first chunk that is not taken, or there is none such. */
  lemma {:induction false} FirstNotTaken<W>(update: Update<W>, w: W, chunks: seq<seq<Byte>>, sizes: seq<nat>, i: nat)
      returns (k: nat)
    requires TakenGiven(update, w, chunks, sizes, i)
    ensures TakenGiven(update, w, chunks, sizes, k)
    ensures k < |chunks| && k < |sizes| ==>
              match OutcomeAt(update, w, chunks, k)
              case Some(Done(_, output)) => |output| > sizes[k]
              case _ => true
    decreases |chunks| - i
  {
    if i < |chunks| && i < |sizes| && TakenGiven(update, w, chunks, sizes, i + 1) {
      k := FirstNotTaken(update, w, chunks, sizes, i + 1);
    } else {
      k := i;
    }
  }

  /** With given buffers the driver returns CKR_OK exactly when there is one for each chunk, each
      output fits its own, and the last output fits some buffer of the list. */
  lemma GivenBuffersSucceed<W>(update: Update<W>, final: Operation<W, Byte>, w: W, chunks: seq<seq<Byte>>,
                               sizes: seq<nat>)
    requires sizes != []
    ensures var r, s := Drive(update, final, w, chunks, sizes), Feed(update, w, chunks, 0, |chunks|);
            r.Returned? && r.code == CKR_OK <==>
            && TakenGiven(update, w, chunks, sizes, |chunks|) && s.Flows? && final.run(s.world).Done?
            && exists n :: n in sizes && |final.run(s.world).output| <= n
  {
    var k := FirstNotTaken(update, w, chunks, sizes, 0);
    GivenBuffersDecide(update, final, w, chunks, sizes, k);
  }

  // ----- Sizes queried -----

  /** For each of the first k chunks, a size is announced and the output fits it. */
  ghost predicate TakenQueried<W>(update: Update<W>, w: W, chunks: seq<seq<Byte>>, k: nat)
  {
    && k <= |chunks|
    && forall i :: 0 <= i < k ==>
         match Feed(update, w, chunks, 0, i)
         case Breaks => false
         case Flows(v, _) =>
           match (update(chunks[i]).estimate(v), update(chunks[i]).run(v))
           case (Sized(n), Done(_, output)) => |output| <= n
           case _ => false
  }

  /** One query and fetch, by what the operation announces and does. */
  lemma QueriedExchange<W>(op: Operation<W, Byte>, w: W)
    ensures var r := Exchange(op, w, None);
            match (op.estimate(w), op.run(w))
            case (Refused(code, next), _) => r.code == code && r.world == next
            case (Sized(_), Failed(code, next)) => r.code == code && r.world == next
            case (Sized(n), Done(next, output)) =>
              if |output| <= n then r.code == CKR_OK && r.world == next && r.output == output
              else r.code == CKR_BUFFER_TOO_SMALL && r.world == w
  {
  }

  /** What happens after the first k chunks, if these are taken: the first failure decides, of a
      query as of a call. */
  lemma QueriesDecide<W>(update: Update<W>, final: Operation<W, Byte>, w: W, chunks: seq<seq<Byte>>, k: nat)
    requires TakenQueried(update, w, chunks, k)
    ensures Feed(update, w, chunks, 0, k).Flows?
    ensures var s, r := Feed(update, w, chunks, 0, k), Drive(update, final, w, chunks, []);
            if k == |chunks| then
              match (final.estimate(s.world), final.run(s.world))
              case (Refused(code, next), _) => r == Returned(code, s.data, next)
              case (Sized(_), Failed(code, next)) => r == Returned(code, s.data, next)
              case (Sized(n), Done(next, last)) =>
                r == if |last| <= n then Returned(CKR_OK, s.data + last, next)
                     else Returned(CKR_BUFFER_TOO_SMALL, s.data, s.world)
            else
              match (update(chunks[k]).estimate(s.world), update(chunks[k]).run(s.world))
              case (Refused(code, next), _) => r == Returned(code, s.data, CleanedUp(final, next))
              case (Sized(_), Failed(code, next)) => r == Returned(code, s.data, CleanedUp(final, next))
              case (Sized(n), Done(_, output)) =>
                |output| > n ==> r == Returned(CKR_BUFFER_TOO_SMALL, s.data, CleanedUp(final, s.world))
  {
    AdvanceFrom(update, w, chunks, [], k);
    var s := Feed(update, w, chunks, 0, k);
    assert s.data + [] == s.data;
    if k == |chunks| {
      QueriedExchange(final, s.world);
    } else {
      QueriedExchange(update(chunks[k]), s.world);
    }
  }
}

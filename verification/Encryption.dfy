/** c_encrypt and c_decrypt of encryption.py, which differ only in the C functions they call,
    over a token whose cipher is any streaming transform. */
module Encryption {
  import opened Wrappers
  import opened Bytes
  import opened CInterface
  import opened AutoCArrays
  import opened Refresh
  import opened TwoCalls
  import opened Multipart

  datatype Init<S> = Started(s: S) | NotStarted(code: ErrorCode)
  datatype Step<S> = Next(s: S, output: seq<Byte>) | Broken(code: ErrorCode)
  datatype Ending = Ended(output: seq<Byte>) | Aborted(code: ErrorCode)
  datatype Guess = Guess(size: nat) | NoGuess(code: ErrorCode)

  /** One direction of one mechanism with one key. S is what the token keeps between calls;
      the *Size functions answer NULL queries. */
  datatype Cipher<!S> = Cipher(
    init: Init<S>,
    update: (S, seq<Byte>) -> Step<S>,
    updateSize: (S, seq<Byte>) -> Guess,
    finish: S -> Ending,
    finishSize: S -> Guess,
    single: (S, seq<Byte>) -> Ending,
    singleSize: (S, seq<Byte>) -> Guess)

  /** Whether an operation is active in the session. */
  datatype Session<S> = Idle | Active(s: S)

  // ----- The token's side (sections 11.8 and 11.9) -----

  /** Init refuses to start a second operation. */
  function InitReply<S>(c: Cipher<S>, session: Session<S>): (Session<S>, nat)
  {
    if session.Active? then (session, CKR_OPERATION_ACTIVE)
    else
      match c.init
      case Started(s) => (Active(s), CKR_OK)
      case NotStarted(code) => (Idle, code)
  }

  /** A failure, other than for want of room, ends the operation; so does the last output. */
  function AfterGuess<S>(g: Guess): Estimate<Session<S>>
  {
    match g case Guess(n) => Estimate.Sized(n) case NoGuess(code) => Refused(code, Idle)
  }

  function AfterEnding<S>(e: Ending): Outcome<Session<S>, Byte>
  {
    match e case Ended(output) => Done(Idle, output) case Aborted(code) => Failed(code, Idle)
  }

  function UpdateOp<S>(c: Cipher<S>): Update<Session<S>>
  {
    chunk =>
      Operation("Update",
                (w: Session<S>) =>
                  (match w
                   case Idle => Failed(CKR_OPERATION_NOT_INITIALIZED, Idle)
                   case Active(s) =>
                     match c.update(s, chunk)
                     case Next(t, output) => Done(Active(t), output)
                     case Broken(code) => Failed(code, Idle)),
                (w: Session<S>) =>
                  match w
                  case Idle => Refused(CKR_OPERATION_NOT_INITIALIZED, Idle)
                  case Active(s) => AfterGuess(c.updateSize(s, chunk)))
  }

  function FinalOp<S>(c: Cipher<S>): Operation<Session<S>, Byte>
  {
    Operation("Final",
              (w: Session<S>) =>
                (match w
                 case Idle => Failed(CKR_OPERATION_NOT_INITIALIZED, Idle)
                 case Active(s) => AfterEnding(c.finish(s))),
              (w: Session<S>) =>
                match w
                case Idle => Refused(CKR_OPERATION_NOT_INITIALIZED, Idle)
                case Active(s) => AfterGuess(c.finishSize(s)))
  }

  function SingleOp<S>(c: Cipher<S>, data: seq<Byte>): Operation<Session<S>, Byte>
  {
    Operation("Single",
              (w: Session<S>) =>
                (match w
                 case Idle => Failed(CKR_OPERATION_NOT_INITIALIZED, Idle)
                 case Active(s) => AfterEnding(c.single(s, data))),
              (w: Session<S>) =>
                match w
                case Idle => Refused(CKR_OPERATION_NOT_INITIALIZED, Idle)
                case Active(s) => AfterGuess(c.singleSize(s, data)))
  }

  // ----- The library's side -----

  /** A bytestring with an optional buffer size, or a list with a list of sizes. */
  datatype Request = Whole(data: seq<Byte>, room: Option<nat>) | Pieces(chunks: seq<seq<Byte>>, sizes: seq<nat>)

  datatype Response<S> = Response(code: nat, data: Option<seq<Byte>>, session: Session<S>) | Raised(session: Session<S>)

  function Respond<S>(c: Cipher<S>, session: Session<S>, request: Request): Response<S>
  {
    var (started, code) := InitReply(c, session);
    if code != CKR_OK then Response(code, None, started)
    else
      match request
      case Pieces(chunks, sizes) =>
        (match Drive(UpdateOp(c), FinalOp(c), started, chunks, sizes)
         case Returned(ret, data, end) => Response(ret, Some(data), end)
         case IndexError(end) => Raised(end))
      case Whole(data, room) =>
        var r := Exchange(SingleOp(c, data), started, room);
        Response(r.code, if r.code == CKR_OK then Some(r.output) else None, r.world)
  }

  method Crypt<S>(dev: Device<Session<S>>, c: Cipher<S>, request: Request) returns (r: Response<S>)
    modifies dev
    ensures r == Respond(c, old(dev.world), request) && r.session == dev.world
  {
    var (started, code) := InitReply(c, dev.world);
    dev.world := started;
    if code != CKR_OK {
      return Response(code, None, dev.world);
    }
    match request
    case Pieces(chunks, sizes) =>
      var result := DoMultipart(dev, UpdateOp(c), FinalOp(c), chunks, sizes);
      match result {
        case Returned(ret, data, _) => r := Response(ret, Some(data), dev.world);
        case IndexError(_) => r := Raised(dev.world);
      }
    case Whole(data, room) =>
      var ret, bytes := CryptWhole(dev, SingleOp(c, data), room);
      r := Response(ret, bytes, dev.world);
  }

  /** The single-part call. The result is cut at the size cell, not at the buffer's end. */
  method CryptWhole<W>(dev: Device<W>, op: Operation<W, Byte>, room: Option<nat>)
      returns (ret: nat, bytes: Option<seq<Byte>>)
    modifies dev
    ensures var r := Exchange(op, old(dev.world), room);
            dev.world == r.world && ret == r.code && bytes == if ret == CKR_OK then Some(r.output) else None
  {
    bytes := None;
    var out;
    if room.Some? {
      var size := new Ulong(room.value);
      out := new AutoCArray<Byte>.Sized(0, size);
      var p := out.Array();
      var n := out.Size();
      ret := Call(dev, op, p, n);
    } else {
      out := new AutoCArray<Byte>.Unsized(0);
      var closure := new Closure(dev, op, out, true);
      ArrayFirstExchanges(op, 0, dev.world);
      assert closure.Now() == Fresh(dev.world);
      var last := RefreshCArrays(closure, 1);
      assert closure.Now().view == out.Value();
      ret := last.value;
    }
    if ret == CKR_OK {
      var p := out.Array();
      var n := out.Size();
      bytes := Some(p[..n.value]);
    }
  }
}

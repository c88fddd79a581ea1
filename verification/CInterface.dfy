/** The C side of a PKCS #11 call that returns output in a variable-length buffer
    (PKCS #11 v2.20, section 11.2), as pycryptoki sees it through ctypes. */
module CInterface {
  import opened Wrappers

  const CKR_OK: nat := 0x0
  const CKR_OPERATION_ACTIVE: nat := 0x90
  const CKR_OPERATION_NOT_INITIALIZED: nat := 0x91
  const CKR_BUFFER_TOO_SMALL: nat := 0x150

  /** The return codes of a genuine failure. A short buffer is reported by the convention
      itself, in Answer, and leaves the operation as it was. */
  type ErrorCode = c: nat | c != 0 && c != 0x150 witness 1

  /** What the operation behind a call does when it is really carried out. */
  datatype Outcome<W, T> = Done(next: W, output: seq<T>) | Failed(code: ErrorCode, next: W)

  /** What it tells a caller that passes a NULL buffer. */
  datatype Estimate<W> = Sized(size: nat) | Refused(code: ErrorCode, next: W)

  /** A C function with its fixed arguments already supplied. W is all the state it acts on. */
  datatype Operation<!W, T> = Operation(name: string, run: W -> Outcome<W, T>, estimate: W -> Estimate<W>)

  /** One returned call: the new state, the code, the size cell and the bytes stored. */
  datatype Reply<W, T> = Reply(world: W, code: nat, size: nat, output: seq<T>)

  /** Section 11.2: a NULL buffer (capacity None) only asks for a size and changes nothing;
      a buffer too short for the output changes nothing either. */
  function Answer<W, T>(op: Operation<W, T>, w: W, capacity: Option<nat>): (r: Reply<W, T>)
    ensures |r.output| <= (if capacity.Some? then capacity.value else 0)
    ensures r.code == CKR_OK && capacity.Some? ==> r.size == |r.output|
    ensures r.code == CKR_OK && capacity.None? ==> r.world == w
    ensures r.code == CKR_BUFFER_TOO_SMALL ==> capacity.Some? && r.world == w
  {
    match capacity
    case None =>
      (match op.estimate(w)
       case Sized(n) => Reply(w, CKR_OK, n, [])
       case Refused(code, next) => Reply(next, code, 0, []))
    case Some(n) =>
      match op.run(w)
      case Failed(code, next) => Reply(next, code, n, [])
      case Done(next, output) =>
        if |output| <= n then Reply(next, CKR_OK, |output|, output)
        else Reply(w, CKR_BUFFER_TOO_SMALL, |output|, [])
  }

  /** The size reported to a NULL query suffices whenever the call itself succeeds. */
  ghost predicate SoundAt<W, T>(op: Operation<W, T>, w: W)
  {
    op.run(w).Done? ==> op.estimate(w).Sized? && |op.run(w).output| <= op.estimate(w).size
  }

  /** Getting one answer: straight into a buffer of known capacity, or query then fetch. */
  function Exchange<W, T>(op: Operation<W, T>, w: W, capacity: Option<nat>): Reply<W, T>
  {
    if capacity.Some? then Answer(op, w, capacity)
    else
      var query := Answer(op, w, None);
      if query.code != CKR_OK then query else Answer(op, query.world, Some(query.size))
  }

  predicate Fits(capacity: Option<nat>, length: nat)
  {
    capacity.None? || length <= capacity.value
  }

  /** An exchange succeeds exactly when the operation does and its output fits, and then it
      delivers that output and that next state, however the size was found. */
  lemma ExchangeMeaning<W, T>(op: Operation<W, T>, w: W, capacity: Option<nat>)
    requires SoundAt(op, w)
    ensures var r, out := Exchange(op, w, capacity), op.run(w);
            && (r.code == CKR_OK <==> out.Done? && Fits(capacity, |out.output|))
            && (r.code == CKR_OK ==> r.world == out.next && r.output == out.output && r.size == |out.output|)
            && (r.code == CKR_BUFFER_TOO_SMALL <==> out.Done? && !Fits(capacity, |out.output|))
            && (r.code == CKR_BUFFER_TOO_SMALL ==> r.world == w)
  {
    if capacity.None? && op.estimate(w).Sized? {
      assert Exchange(op, w, capacity) == Answer(op, w, Some(op.estimate(w).size));
    }
  }

  /** A CK_ULONG that calls read and write through a pointer. */
  class Ulong {
    var value: nat

    constructor (value: nat)
      ensures this.value == value
    {
      this.value := value;
    }
  }

  datatype Entry = Entry(name: string, capacity: Option<nat>, code: nat)

  /** Everything behind the library: its state, and a ghost record of the calls made to it. */
  class Device<W> {
    var world: W
    ghost var log: seq<Entry>

    constructor (world: W)
      ensures this.world == world && log == []
    {
      this.world := world;
      log := [];
    }
  }

  /** The capacity a call sees: none for a NULL buffer, else what the size cell claims. */
  ghost function CapacityOf<T>(buffer: array?<T>, len: Ulong): Option<nat>
    reads len
  {
    if buffer == null then None else Some(len.value)
  }

  /** One foreign call. The callee believes the size cell, so the caller must not claim
      more room than the buffer has. */
  method Call<W, T>(dev: Device<W>, op: Operation<W, T>, buffer: array?<T>, len: Ulong) returns (rv: nat)
    requires buffer != null ==> len.value <= buffer.Length
    modifies dev, len, buffer
    ensures var r := Answer(op, old(dev.world), old(CapacityOf(buffer, len)));
            && dev.world == r.world && rv == r.code && len.value == r.size
            && dev.log == old(dev.log) + [Entry(op.name, old(CapacityOf(buffer, len)), rv)]
            && (buffer != null ==>
               |r.output| <= buffer.Length && buffer[..] == r.output + old(buffer[..])[|r.output|..])
  {
    var capacity := if buffer == null then None else Some(len.value);
    var r := Answer(op, dev.world, capacity);
    if buffer != null {
      forall i | 0 <= i < |r.output| {
        buffer[i] := r.output[i];
      }
    }
    dev.world, dev.log := r.world, dev.log + [Entry(op.name, capacity, r.code)];
    len.value := r.size;
    rv := r.code;
  }
}

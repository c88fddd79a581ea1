/** do_multipart_operation of encryption.py: one Update per chunk, then Final. It is given the
    two C functions it calls, so it is modelled for any two, acting on any state. */
module Multipart {
  import opened Wrappers
  import opened Bytes
  import opened CInterface
  import opened Chunks

  const MAX_BUFFER: nat := 0xffff

  type Update<!W> = seq<Byte> -> Operation<W, Byte>

  /** IndexError is raised for a buffer list shorter than the chunk list. */
  datatype Result<W> = Returned(code: nat, data: seq<Byte>, world: W) | IndexError(world: W)

  // ----- What the driver computes -----

  /** How far the chunk loop gets: chunks accepted, the state then, and the bytes collected. */
  datatype Progress<W> = Progress(count: nat, world: W, data: seq<Byte>)

  /** The output buffer for chunk i. An empty list counts as no list: sizes are queried. */
  function Room(sizes: seq<nat>, i: nat): Option<nat>
    requires sizes == [] || i < |sizes|
  {
    if sizes == [] then None else Some(sizes[i])
  }

  predicate Provided(sizes: seq<nat>, i: nat)
  {
    sizes == [] || i < |sizes|
  }

  function Max(sizes: seq<nat>): (m: nat)
    requires sizes != []
    ensures m in sizes && forall n :: n in sizes ==> n <= m
  {
    if |sizes| == 1 then sizes[0]
    else
      assert sizes == [sizes[0]] + sizes[1..];
      var m := Max(sizes[1..]); if sizes[0] > m then sizes[0] else m
  }

  /** The buffer for Final: as big as the biggest one given, or queried. */
  function FinalRoom(sizes: seq<nat>): Option<nat>
  {
    if sizes == [] then None else Some(Max(sizes))
  }

  function Advance<W>(update: Update<W>, w: W, chunks: seq<seq<Byte>>, sizes: seq<nat>, i: nat): (p: Progress<W>)
    requires i <= |chunks|
    ensures i <= p.count <= |chunks|
    decreases |chunks| - i
  {
    if i == |chunks| || !Provided(sizes, i) then Progress(i, w, [])
    else
      var r := Exchange(update(chunks[i]), w, Room(sizes, i));
      if r.code != CKR_OK then Progress(i, w, [])
      else
        var p := Advance(update, r.world, chunks, sizes, i + 1);
        p.(data := r.output + p.data)
  }

  function Drive<W>(update: Update<W>, final: Operation<W, Byte>, w: W, chunks: seq<seq<Byte>>,
                    sizes: seq<nat>): Result<W>
  {
    var p := Advance(update, w, chunks, sizes, 0);
    if p.count == |chunks| then
      var r := Exchange(final, p.world, FinalRoom(sizes));
      Returned(r.code, if r.code == CKR_OK then p.data + r.output else p.data, r.world)
    else if !Provided(sizes, p.count) then IndexError(p.world)
    else
      var r := Exchange(update(chunks[p.count]), p.world, Room(sizes, p.count));
      Returned(r.code, p.data, Answer(final, r.world, Some(MAX_BUFFER)).world)
  }

  // ----- The driver itself -----

  /** How many of these calls are to the C function of that name. */
  ghost function CallsTo(name: string, log: seq<Entry>): nat
  {
    if log == [] then 0
    else CallsTo(name, log[..|log| - 1]) + if log[|log| - 1].name == name then 1 else 0
  }

  /** Calls one exchange makes: a query and, if that went well, a fetch; or just the fetch. */
  ghost function ExchangeCalls<W>(op: Operation<W, Byte>, w: W, capacity: Option<nat>): nat
  {
    if capacity.None? && op.estimate(w).Sized? then 2 else 1
  }

  /** Calls to Final that a run makes. */
  ghost function FinalCalls<W>(update: Update<W>, final: Operation<W, Byte>, w: W, chunks: seq<seq<Byte>>,
                               sizes: seq<nat>): nat
  {
    var p := Advance(update, w, chunks, sizes, 0);
    if p.count == |chunks| then ExchangeCalls(final, p.world, FinalRoom(sizes))
    else if !Provided(sizes, p.count) then 0
    else 1
  }

  /** One Update or Final with its buffer: allocated to the given size, or to the size that a
      NULL query reports. The bytes returned are cut at the size cell. */
  method Fetch<W>(dev: Device<W>, op: Operation<W, Byte>, capacity: Option<nat>) returns (ret: nat, bytes: seq<Byte>)
    modifies dev
    ensures var r := Exchange(op, old(dev.world), capacity);
            dev.world == r.world && ret == r.code && (ret == CKR_OK ==> bytes == r.output)
    ensures forall name :: CallsTo(name, dev.log) == old(CallsTo(name, dev.log)) +
                           if op.name == name then ExchangeCalls(op, old(dev.world), capacity) else 0
  {
    bytes := [];
    var out: array?<Byte>;
    var len;
    if capacity.Some? {
      len := new Ulong(capacity.value);
      out := new Byte[capacity.value](_ => 0);
    } else {
      len := new Ulong(0);
      out := null;
    }
    ret := Call(dev, op, out, len);
    if ret != CKR_OK {
      return;
    }
    if capacity.None? {
      out := new Byte[len.value](_ => 0);
      ret := Call(dev, op, out, len);
      if ret != CKR_OK {
        return;
      }
    }
    bytes := out[..len.value];
  }

  /** What remains to be done from chunk i completes the whole. */
  ghost predicate Completes<W>(whole: Progress<W>, sofar: seq<Byte>, rest: Progress<W>)
  {
    whole.count == rest.count && whole.world == rest.world && whole.data == sofar + rest.data
  }

  lemma AcceptChunk<W>(whole: Progress<W>, sofar: seq<Byte>, update: Update<W>, w: W, chunks: seq<seq<Byte>>,
                       sizes: seq<nat>, i: nat)
    requires i < |chunks| && Provided(sizes, i)
    requires Completes(whole, sofar, Advance(update, w, chunks, sizes, i))
    ensures var r := Exchange(update(chunks[i]), w, Room(sizes, i));
            if r.code == CKR_OK then Completes(whole, sofar + r.output, Advance(update, r.world, chunks, sizes, i + 1))
            else whole == Progress(i, w, sofar)
  {
    var r := Exchange(update(chunks[i]), w, Room(sizes, i));
    if r.code == CKR_OK {
      var rest := Advance(update, r.world, chunks, sizes, i + 1);
      assert whole.data == sofar + (r.output + rest.data) == (sofar + r.output) + rest.data;
    } else {
      assert whole.data == sofar + [];
    }
  }

  /** The chunk loop: it stops at the first chunk refused, or without a buffer. */
  method UpdateChunks<W>(dev: Device<W>, update: Update<W>, chunks: seq<seq<Byte>>, sizes: seq<nat>)
      returns (index: nat, pythonData: seq<seq<Byte>>, error: Option<nat>)
    modifies dev
    ensures var p := Advance(update, old(dev.world), chunks, sizes, 0);
            && index == p.count && Join(pythonData) == p.data
            && (error.None? ==> dev.world == p.world && (index == |chunks| || !Provided(sizes, index)))
            && (error.Some? ==>
                  && index < |chunks| && Provided(sizes, index) && error.value != CKR_OK
                  && var r := Exchange(update(chunks[index]), p.world, Room(sizes, index));
                     dev.world == r.world && error.value == r.code)
    ensures forall name :: (forall chunk :: update(chunk).name != name) ==>
            CallsTo(name, dev.log) == old(CallsTo(name, dev.log))
  {
    ghost var whole := Advance(update, dev.world, chunks, sizes, 0);
    pythonData, error, index := [], None, 0;
    while index < |chunks|
      invariant index <= |chunks|
      invariant forall name :: (forall chunk :: update(chunk).name != name) ==>
                CallsTo(name, dev.log) == old(CallsTo(name, dev.log))
      invariant Completes(whole, Join(pythonData), Advance(update, dev.world, chunks, sizes, index))
    {
      if sizes != [] && index >= |sizes| {
        return;
      }
      AcceptChunk(whole, Join(pythonData), update, dev.world, chunks, sizes, index);
      var ret, bytes := Fetch(dev, update(chunks[index]), Room(sizes, index));
      if ret != CKR_OK {
        error := Some(ret);
        return;
      }
      JoinAppend(pythonData, bytes);
      pythonData := pythonData + [bytes];
      index := index + 1;
    }
  }

  method DoMultipart<W>(dev: Device<W>, update: Update<W>, final: Operation<W, Byte>,
                        chunks: seq<seq<Byte>>, sizes: seq<nat>)
      returns (r: Result<W>)
    modifies dev
    ensures r == Drive(update, final, old(dev.world), chunks, sizes) && r.world == dev.world
    ensures (forall chunk :: update(chunk).name != final.name) ==>
              CallsTo(final.name, dev.log) == old(CallsTo(final.name, dev.log)) +
                                              FinalCalls(update, final, old(dev.world), chunks, sizes)
  {
    var index, pythonData, error := UpdateChunks(dev, update, chunks, sizes);
    if error.Some? {
      // Leave no operation active.
      var _, _ := Fetch(dev, final, Some(MAX_BUFFER));
      return Returned(error.value, Join(pythonData), dev.world);
    }
    if index < |chunks| {
      return IndexError(dev.world);
    }
    var ret, bytes := Fetch(dev, final, FinalRoom(sizes));
    if ret != CKR_OK {
      return Returned(ret, Join(pythonData), dev.world);
    }
    if |bytes| > 0 {
      JoinAppend(pythonData, bytes);
      pythonData := pythonData + [bytes];
    }
    r := Returned(ret, Join(pythonData), dev.world);
  }
}

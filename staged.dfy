/**
 * The run-time protocol of the code `write_step` emits, with the memory abstracted to field
 * slots. A `Buffer` is the `Box<[u8]>` every step owns: either the `Raw` allocation, one slot
 * per field, or the empty box `Box::new([])`. A `Stage` is a value of type `Step{k}`: it owns
 * one buffer whose first k slots are initialised. Releasing a field value (the value read
 * back by `ptr::read` in `Drop` and dropped) and freeing the allocation are recorded in a
 * `Log` shared by all steps.
 */
module Staged {

  /** One field's bytes inside `Raw`: zeroed, or holding a value. */
  datatype Slot<T> = Uninit | Init(value: T)

  /** What a `Drop` does that can be observed: drop the value of field `field`, or free `Raw`. */
  datatype Event<T> = Released(field: nat, value: T) | BufferFreed

  /** The observable effects of dropping a step whose fields hold `fs`, in order. */
  function ReleaseOrder<T>(fs: seq<T>): seq<Event<T>> {
    if fs == [] then [BufferFreed] else [Released(|fs|, fs[|fs| - 1])] + ReleaseOrder(fs[..|fs| - 1])
  }

  /**
   * Dropping a step with k fields releases field k, k-1, ..., 1, each once and in that order,
   * and then frees the allocation, once.
   */
  lemma {:induction false} ReleaseOrderExactlyOnce<T>(fs: seq<T>)
    ensures |ReleaseOrder(fs)| == |fs| + 1
    ensures forall i :: 0 <= i < |fs| ==> ReleaseOrder(fs)[i] == Released(|fs| - i, fs[|fs| - 1 - i])
    ensures ReleaseOrder(fs)[|fs|] == BufferFreed
    ensures forall i, j :: 0 <= i < j <= |fs| ==> ReleaseOrder(fs)[i] != ReleaseOrder(fs)[j]
  {
    if fs != [] {
      var p := fs[..|fs| - 1];
      ReleaseOrderExactlyOnce(p);
      assert forall i :: 0 <= i < |p| ==> p[i] == fs[i];
    }
  }

  /** The effects observed so far. */
  class Log<T> {
    var events: seq<Event<T>>

    constructor ()
      ensures events == []
    {
      events := [];
    }
  }

  /** The `Box<[u8]>` a step owns. */
  class Buffer<T> {
    var slots: seq<Slot<T>>

    /** `vec!(0; size_of::<Raw>()).into_boxed_slice()`: one zeroed slot per field. */
    constructor Zeroed(n: nat)
      ensures slots == seq(n, _ => Uninit)
    {
      slots := seq(n, _ => Uninit);
    }

    /** `Box::new([])`, the box swapped in by `mem::replace`. */
    constructor Empty()
      ensures slots == []
    {
      slots := [];
    }
  }

  /** A value of type `Step{k}` of a declaration with `n` fields. */
  class Stage<T> {
    const k: nat
    const n: nat
    var buf: Buffer<T>
    const log: Log<T>

    /** The step owns the `Raw` allocation with exactly fields 1..k written. */
    predicate Valid()
      reads this, buf
    {
      && 1 <= k <= n && |buf.slots| == n
      && (forall i :: 0 <= i < k ==> buf.slots[i].Init?)
      && (forall i :: k <= i < n ==> buf.slots[i] == Uninit)
    }

    /** The values of fields 1..k. */
    function Fields(): (fs: seq<T>)
      requires Valid()
      reads this, buf
      ensures |fs| == k
    {
      seq(k, i requires 0 <= i < k && Valid() reads this, buf => buf.slots[i].value)
    }

    /** `Step1::new(p)`: allocate `Raw` zeroed and write the first field. */
    constructor New(n: nat, p: T, log: Log<T>)
      requires 1 <= n
      ensures Valid() && k == 1 && this.n == n && this.log == log && fresh(buf)
      ensures buf.slots == [Init(p)] + seq(n - 1, _ => Uninit)
      ensures Fields() == [p]
    {
      var r := new Buffer.Zeroed(n);
      r.slots := r.slots[0 := Init(p)];
      assert r.slots == [Init(p)] + seq(n - 1, _ => Uninit);
      k, this.n, buf, this.log := 1, n, r, log;
    }

    /** `Step{k}(b)`: wrap a buffer whose first k fields, and no others, are written. */
    constructor Wrap(k: nat, n: nat, b: Buffer<T>, log: Log<T>)
      requires 1 <= k <= n && |b.slots| == n
      requires forall i :: 0 <= i < k ==> b.slots[i].Init?
      requires forall i :: k <= i < n ==> b.slots[i] == Uninit
      ensures Valid() && this.k == k && this.n == n && buf == b && this.log == log
    {
      this.k, this.n, buf, this.log := k, n, b, log;
    }

    /**
     * Getter `i` (its view checks the buffer length with `debug_assert_eq!`): the value of
     * field i.
     */
    method Get(i: nat) returns (v: T)
      requires Valid() && 1 <= i <= k
      ensures v == Fields()[i - 1]
    {
      assert |buf.slots| == n;
      v := buf.slots[i - 1].value;
    }

    /**
     * The transition named after field k+1: compute its value from the step (`f(&self)`),
     * write it, move the allocation into a fresh `Step{k+1}` and forget this step, which is
     * left holding the empty box. The value is written over a slot that holds none, so nothing
     * is overwritten or released, and the allocation keeps its length.
     */
    method Advance(f: seq<T> -> T) returns (next: Stage<T>)
      requires Valid() && k < n
      modifies this, buf
      ensures fresh(next) && next.Valid() && next.k == k + 1 && next.n == n && next.log == log
      ensures old(buf.slots)[k] == Uninit
      ensures next.buf == old(buf) && |next.buf.slots| == n
      ensures next.Fields() == old(Fields()) + [f(old(Fields()))]
      ensures fresh(buf) && buf.slots == []
      ensures log.events == old(log.events)
    {
      ghost var before := Fields();
      var r := f(Fields());
      buf.slots := buf.slots[k := Init(r)];
      var b := buf;
      buf := new Buffer.Empty();
      next := new Stage.Wrap(k + 1, n, b, log);
      assert next.Fields() == before + [r] by {
        assert forall i :: 0 <= i < k ==> next.Fields()[i] == before[i];
      }
    }

    /**
     * `drop()`: read field k back, which moves the value out of its slot, and drop it; for
     * k > 1, move the allocation into a `Step{k-1}` that is dropped at once; for k = 1 the
     * allocation itself is freed when the step's box goes. Afterwards no slot holds a value.
     */
    method Drop()
      requires Valid()
      modifies this, buf, log
      ensures log.events == old(log.events) + ReleaseOrder(old(Fields()))
      ensures old(buf).slots == seq(n, _ => Uninit)
      decreases k
    {
      ghost var fs := Fields();
      var v := buf.slots[k - 1].value;
      buf.slots := buf.slots[k - 1 := Uninit];
      log.events := log.events + [Released(k, v)];
      if k > 1 {
        var b := buf;
        buf := new Buffer.Empty();
        var prev := new Stage.Wrap(k - 1, n, b, log);
        assert prev.Fields() == fs[..k - 1];
        prev.Drop();
      } else {
        log.events := log.events + [BufferFreed];
        assert buf.slots == seq(n, _ => Uninit);
      }
    }

    /** `build(self)`: the last step becomes the public struct. */
    method Build() returns (s: Finished<T>)
      requires Valid() && k == n
      ensures fresh(s) && s.inner == this
    {
      s := new Finished(this);
    }
  }

  /** The outer struct `name(module::Step{N})`. */
  class Finished<T> {
    const inner: Stage<T>

    constructor (inner: Stage<T>)
      ensures this.inner == inner
    {
      this.inner := inner;
    }

    /** The outer accessor of field i forwards to the last step's getter. */
    method Get(i: nat) returns (v: T)
      requires inner.Valid() && inner.k == inner.n && 1 <= i <= inner.n
      ensures v == inner.Fields()[i - 1]
    {
      v := inner.Get(i);
    }

    /** Dropping the outer struct drops the last step. */
    method Drop()
      requires inner.Valid()
      modifies inner, inner.buf, inner.log
      ensures inner.log.events == old(inner.log.events) + ReleaseOrder(old(inner.Fields()))
      ensures old(inner.buf).slots == seq(inner.n, _ => Uninit)
    {
      inner.Drop();
    }
  }

  /**
   * `FooFinder::new(data).foos(f).build()` (a declaration with two fields): each accessor
   * returns the value written into its field.
   */
  method FooFinderRoundTrip<T>(data: T, f: seq<T> -> T) returns (d: T, foos: T)
    ensures d == data && foos == f([data])
  {
    var log := new Log<T>();
    var s1 := new Stage.New(2, data, log);
    var s2 := s1.Advance(f);
    var v := s2.Build();
    d := v.Get(1);
    foos := v.Get(2);
  }

  /**
   * `Vulkan::new(device).program(..).command_buffer(..).build()` and then the end of its
   * scope: the command buffer is released first, then the program, then the device, and only
   * then the allocation is freed.
   */
  method VulkanTeardown<T>(device: T, program: T, commandBuffer: T) returns (events: seq<Event<T>>)
    ensures events == [Released(3, commandBuffer), Released(2, program), Released(1, device), BufferFreed]
  {
    var log := new Log<T>();
    var s1 := new Stage.New(3, device, log);
    var s2 := s1.Advance(_ => program);
    var s3 := s2.Advance(_ => commandBuffer);
    var v := s3.Build();
    assert v.inner.Fields() == [device, program, commandBuffer];
    v.Drop();
    ReleaseOrderOfThree(device, program, commandBuffer);
    events := log.events;
  }

  lemma ReleaseOrderOfThree<T>(a: T, b: T, c: T)
    ensures ReleaseOrder([a, b, c]) == [Released(3, c), Released(2, b), Released(1, a), BufferFreed]
  {
    var fs := [a, b, c];
    assert fs[..2] == [a, b] && fs[..2][..1] == [a] && [a][..0] == [];
    assert ReleaseOrder([a]) == [Released(1, a), BufferFreed];
    assert ReleaseOrder(fs[..2]) == [Released(2, b), Released(1, a), BufferFreed];
  }
}

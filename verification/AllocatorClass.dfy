/** `FixedSizeBlockAllocator` itself: list heads in an array, links written in place into the
    bytes of the heap. Each method is proved to do what the functions of `BlockAllocator` say. */
module AllocatorClass {
  import opened Bytes
  import BA = BlockAllocator
  import Runs = AllocatorRuns

  class FixedSizeBlockAllocator {
    const heapStart: nat
    const memory: array<byte>
    const listHeads: array<Option<nat>>
    ghost var granted: BA.Grants
    ghost var live: BA.Grants
    ghost var free: seq<seq<nat>>

    ghost function View(): BA.State
      reads this, memory, listHeads
    {
      BA.State(heapStart, memory[..], listHeads[..], granted, live)
    }

    ghost predicate Valid()
      reads this, memory, listHeads
    {
      memory as object != listHeads as object && BA.Inv(View(), free)
    }

    /** `new` followed by `init` on a heap of these bytes. */
    constructor (heapStart: nat, memory: array<byte>)
      requires heapStart + memory.Length <= Pow256(WORD)
      ensures Valid() && fresh(listHeads) && this.memory == memory
      ensures View() == Runs.Init(heapStart, memory[..])
    {
      this.heapStart := heapStart;
      this.memory := memory;
      this.listHeads := new Option<nat>[BA.CLASSES](_ => None);
      this.granted, this.live, this.free := map[], map[], seq(BA.CLASSES, _ => []);
      new;
      Runs.InitInv(heapStart, memory[..]);
      assert View().heads == Runs.Init(heapStart, memory[..]).heads;
    }

    method ReadLink(p: nat) returns (next: Option<nat>)
      requires BA.InHeap(View(), p, WORD)
      ensures next == BA.LinkAt(View(), p)
    {
      var v := Load(memory[p - heapStart..p - heapStart + WORD]);
      assert memory[p - heapStart..p - heapStart + WORD] == memory[..][p - heapStart..p - heapStart + WORD];
      next := if v == 0 then None else Some(v);
    }

    method WriteLink(p: nat, next: Option<nat>)
      requires BA.InHeap(View(), p, WORD) && memory as object != listHeads as object
      modifies memory
      ensures View() == BA.SetLink(old(View()), p, next)
    {
      var bs := Store(if next.Some? then next.value else 0, WORD);
      WriteBytes(p - heapStart, bs);
    }

    /** The store of a pointer, byte by byte. */
    method WriteBytes(at: nat, bs: seq<byte>)
      requires at + |bs| <= memory.Length && memory as object != listHeads as object
      modifies memory
      ensures memory[..] == Put(old(memory[..]), at, bs)
      ensures listHeads[..] == old(listHeads[..])
    {
      ghost var was := memory[..];
      assert Put(was, at, bs[..0]) == was;
      for k := 0 to |bs|
        invariant memory[..] == Put(was, at, bs[..k])
      {
        PutNext(was, at, bs, k);
        memory[at + k] := bs[k];
      }
      assert bs[..|bs|] == bs;
    }

    /** `answer` is what the fallback heap returns if it is asked. */
    method Allocate(layout: BA.Layout, answer: Option<nat>) returns (r: Option<nat>)
      requires Valid() && Runs.Legal(View(), Runs.Alloc(layout, answer))
      modifies this, memory, listHeads
      ensures Valid()
      ensures View() == Runs.Step(old(View()), Runs.Alloc(layout, answer))
      ensures BA.WellFormed(old(View())) && r == BA.Allocate(old(View()), layout, answer).1
    {
      ghost var s, e := View(), Runs.Alloc(layout, answer);
      Runs.StepPreserves(s, free, e);
      free := Runs.FreeAfter(s, free, e);
      r := TakeBlock(layout, answer);
    }

    /** Pops a block of the layout's class, or asks the fallback heap. */
    method TakeBlock(layout: BA.Layout, answer: Option<nat>) returns (r: Option<nat>)
      requires BA.WellFormed(View()) && memory as object != listHeads as object
      modifies this, memory, listHeads
      ensures free == old(free)
      ensures (View(), r) == BA.Allocate(old(View()), layout, answer)
    {
      match BA.ListIndex(layout) {
        case Some(index) =>
          match listHeads[index] {
            case Some(node) =>
              var next := ReadLink(node);
              WriteLink(node, None);
              listHeads[index] := next;
              live := live[node := layout];
              return Some(node);
            case None =>
              r := FallbackAlloc(layout, answer);
          }
        case None =>
          r := FallbackAlloc(layout, answer);
      }
    }

    /** The fallback heap's answer, entered in the two books. */
    method FallbackAlloc(layout: BA.Layout, answer: Option<nat>) returns (r: Option<nat>)
      modifies this
      ensures free == old(free)
      ensures View() == BA.FallbackAlloc(old(View()), layout, answer) && r == answer
    {
      r := answer;
      if answer.Some? {
        granted := granted[answer.value := BA.Backing(layout)];
        live := live[answer.value := layout];
      }
    }

    /** `ptr` must come from `Allocate` with the same layout and not be freed already. */
    method Deallocate(ptr: nat, layout: BA.Layout)
      requires Valid() && Runs.Legal(View(), Runs.Dealloc(ptr, layout))
      modifies this, memory, listHeads
      ensures Valid()
      ensures View() == Runs.Step(old(View()), Runs.Dealloc(ptr, layout))
    {
      ghost var s, e := View(), Runs.Dealloc(ptr, layout);
      Runs.StepPreserves(s, free, e);
      free := Runs.FreeAfter(s, free, e);
      ReturnBlock(ptr, layout);
    }

    /** Pushes the block onto the list of its class, or gives it back to the fallback heap. */
    method ReturnBlock(ptr: nat, layout: BA.Layout)
      requires BA.WellFormed(View()) && (BA.ListIndex(layout).Some? ==> BA.InHeap(View(), ptr, WORD))
      requires memory as object != listHeads as object
      modifies this, memory, listHeads
      ensures free == old(free)
      ensures View() == BA.Deallocate(old(View()), ptr, layout)
    {
      match BA.ListIndex(layout) {
        case Some(index) =>
          WriteLink(ptr, listHeads[index]);
          listHeads[index] := Some(ptr);
          live := live - {ptr};
        case None =>
          granted := granted - {ptr};
          live := live - {ptr};
      }
    }
  }
}

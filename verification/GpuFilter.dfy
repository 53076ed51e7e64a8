/**
 The filter over the GPU ids an enumeration answers with: ids whose device cannot be reached are
 taken out of the answer in place, unless that would empty it.
 */
module GpuFilter {

  const MAX_ATTACHED_GPUS: nat := 32
  const INVALID_GPU_ID: nat := 0xFFFF_FFFF

  type Id = x: int | 0 <= x <= INVALID_GPU_ID

  type Keep = Id -> bool

  /** The populated prefix: what stands before the first sentinel. */
  function Live(ids: seq<Id>): (live: seq<Id>)
    ensures |live| <= |ids| && live == ids[..|live|] && INVALID_GPU_ID !in live
    ensures |live| < |ids| ==> ids[|live|] == INVALID_GPU_ID
  {
    if ids == [] || ids[0] == INVALID_GPU_ID then []
    else [ids[0]] + Live(ids[1..])
  }

  /** The ids to keep, in order. */
  function Kept(ids: seq<Id>, keep: Keep): (kept: seq<Id>)
    ensures |kept| <= |ids|
    ensures |kept| == |ids| <==> forall id :: id in ids ==> keep(id)
    ensures forall id :: id in kept <==> id in ids && keep(id)
  {
    if ids == [] then []
    else
      var last := ids[|ids| - 1];
      var front := Kept(ids[..|ids| - 1], keep);
      assert ids == ids[..|ids| - 1] + [last];
      if keep(last) then front + [last] else front
  }

  function Padding(n: nat): (padding: seq<Id>)
    ensures |padding| == n
  {
    seq(n, i => INVALID_GPU_ID)
  }

  /** Unchanged where none or all are kept; else the kept ones, padded to the same length. */
  function Filtered(ids: seq<Id>, keep: Keep): (r: seq<Id>)
    ensures |r| == |ids|
  {
    var kept := Kept(Live(ids), keep);
    if kept == [] || |kept| == |Live(ids)| then ids else kept + Padding(|ids| - |kept|)
  }

  /** The places whose ids are kept, in order. */
  function Places(ids: seq<Id>, keep: Keep): (at: seq<nat>)
    ensures forall i :: 0 <= i < |at| ==> at[i] < |ids| && keep(ids[at[i]])
    ensures forall i, j :: 0 <= i < j < |at| ==> at[i] < at[j]
  {
    if ids == [] then []
    else
      var last := |ids| - 1;
      var front := Places(ids[..last], keep);
      if keep(ids[last]) then front + [last] else front
  }

  lemma {:induction false} EveryKeptPlace(ids: seq<Id>, keep: Keep, k: nat)
    requires k < |ids| && keep(ids[k])
    ensures k in Places(ids, keep)
  {
    var last := |ids| - 1;
    if k < last {
      EveryKeptPlace(ids[..last], keep, k);
    }
  }

  /** The ids at the places `at`. */
  function Picked(ids: seq<Id>, at: seq<nat>): (r: seq<Id>)
    requires forall i :: 0 <= i < |at| ==> at[i] < |ids|
  {
    seq(|at|, i requires 0 <= i < |at| => ids[at[i]])
  }

  lemma PickedFromFront(ids: seq<Id>, at: seq<nat>)
    requires ids != [] && forall i :: 0 <= i < |at| ==> at[i] < |ids| - 1
    ensures Picked(ids, at) == Picked(ids[..|ids| - 1], at)
    ensures Picked(ids, at + [|ids| - 1]) == Picked(ids, at) + [ids[|ids| - 1]]
  {
  }

  /** The kept ids stand at the kept places: in order, none twice and, by `EveryKeptPlace`, none lost. */
  lemma {:induction false} KeptIsSubsequence(ids: seq<Id>, keep: Keep)
    ensures Kept(ids, keep) == Picked(ids, Places(ids, keep))
  {
    if ids != [] {
      KeptIsSubsequence(ids[..|ids| - 1], keep);
      PickedFromFront(ids, Places(ids[..|ids| - 1], keep));
    }
  }

  lemma {:induction false} LiveOfPadded(front: seq<Id>, n: nat)
    requires INVALID_GPU_ID !in front
    ensures Live(front + Padding(n)) == front
  {
    if front == [] {
      assert front + Padding(n) == Padding(n);
    } else {
      assert (front + Padding(n))[1..] == front[1..] + Padding(n);
      LiveOfPadded(front[1..], n);
    }
  }

  /** What is live afterwards: the kept ids if there are any, else all there were. */
  lemma LiveAfter(ids: seq<Id>, keep: Keep)
    ensures Live(Filtered(ids, keep)) == if Kept(Live(ids), keep) == [] then Live(ids) else Kept(Live(ids), keep)
  {
    var live := Live(ids);
    var kept := Kept(live, keep);
    if |kept| == |live| {
      AllKept(live, keep);
    } else if kept != [] {
      LiveOfPadded(kept, |ids| - |kept|);
    }
  }

  lemma {:induction false} AllKept(ids: seq<Id>, keep: Keep)
    requires |Kept(ids, keep)| == |ids|
    ensures Kept(ids, keep) == ids
  {
    if ids != [] {
      AllKept(ids[..|ids| - 1], keep);
    }
  }

  /** A machine with a GPU never looks like one without. */
  lemma {:induction false} NeverEmptied(ids: seq<Id>, keep: Keep)
    ensures Live(ids) != [] ==> Live(Filtered(ids, keep)) != []
  {
    LiveAfter(ids, keep);
  }

  /** And filtering an answer again changes nothing. */
  lemma {:induction false} Idempotent(ids: seq<Id>, keep: Keep)
    ensures Filtered(Filtered(ids, keep), keep) == Filtered(ids, keep)
  {
    LiveAfter(ids, keep);
    var kept := Kept(Live(ids), keep);
    assert forall id :: id in kept ==> keep(id);
    assert |Kept(kept, keep)| == |kept|;
  }

  /** Counts the live ids and collects those to keep. */
  method Scan(ids: array<Id>, keep: Keep, kept: array<Id>) returns (total: nat, nkept: nat)
    requires ids.Length == kept.Length && ids != kept
    modifies kept
    ensures nkept <= total == |Live(ids[..])| <= ids.Length
    ensures kept[..nkept] == Kept(Live(ids[..]), keep)
  {
    ghost var was := ids[..];
    total, nkept := 0, 0;
    while total < ids.Length && ids[total] != INVALID_GPU_ID
      invariant 0 <= nkept <= total <= ids.Length && ids[..] == was
      invariant INVALID_GPU_ID !in was[..total]
      invariant kept[..nkept] == Kept(was[..total], keep)
    {
      var id := ids[total];
      assert was[..total + 1] == was[..total] + [id];
      total := total + 1;
      if keep(id) {
        kept[nkept] := id;
        nkept := nkept + 1;
      }
    }
    LiveIs(was, total);
  }

  method FilterIds(ids: array<Id>, keep: Keep)
    requires ids.Length == MAX_ATTACHED_GPUS
    modifies ids
    ensures ids[..] == Filtered(old(ids[..]), keep)
  {
    var kept := new Id[MAX_ATTACHED_GPUS](i => 0);
    var total, nkept := Scan(ids, keep, kept);
    if 0 < nkept < total {
      CopyBack(ids, kept, nkept);
    }
  }

  /** The first `n` kept, and the sentinel after them. */
  method CopyBack(ids: array<Id>, kept: array<Id>, n: nat)
    requires n <= ids.Length == kept.Length && ids != kept
    modifies ids
    ensures ids[..] == kept[..n] + Padding(ids.Length - n)
  {
    for i := 0 to n
      invariant ids[..i] == kept[..i]
    {
      ids[i] := kept[i];
    }
    for i := n to ids.Length
      invariant ids[..n] == kept[..n]
      invariant forall k :: n <= k < i ==> ids[k] == INVALID_GPU_ID
    {
      ids[i] := INVALID_GPU_ID;
    }
  }

  lemma {:induction false} LiveIs(ids: seq<Id>, n: nat)
    requires n <= |ids| && INVALID_GPU_ID !in ids[..n] && (n < |ids| ==> ids[n] == INVALID_GPU_ID)
    ensures Live(ids) == ids[..n]
  {
    if n > 0 {
      assert ids[..n][0] == ids[0] && ids[..n][1..] == ids[1..][..n - 1];
      LiveIs(ids[1..], n - 1);
    }
  }

  // ----- which answers are filtered

  const NV_RM_CONTROL_REQUEST: bv64 := 0xC020_462A
  const IOC_SIZE_FIELD: bv64 := 0x3FFF_0000
  const GPU_GET_ATTACHED_IDS: nat := 0x0201
  const GPU_GET_PROBED_IDS: nat := 0x0214
  const ATTACHED_PARAMS_SIZE: nat := 4 * MAX_ATTACHED_GPUS
  const PROBED_PARAMS_SIZE: nat := 4 * MAX_ATTACHED_GPUS * 2

  /** The request without its encoded parameter size. */
  function IocNoSize(req: bv64): bv64 {
    req & !IOC_SIZE_FIELD
  }

  /** What the control device's file is known to be: not looked up, or another device, or it. */
  datatype Fd = Unresolved | Other | Nvidiactl

  /** A finished ioctl: its result and request, its argument if not null, and the file it was made on. */
  datatype Call = Call(rc: int, req: bv64, fd: Fd, arg: bool, status: nat, params: bool, cmd: nat, paramsSize: nat)

  /** A successful enumeration on the control device, of the layout its command has. */
  predicate Enumerates(c: Call) {
    && c.rc == 0 && IocNoSize(c.req) == IocNoSize(NV_RM_CONTROL_REQUEST) && c.arg && !c.fd.Other?
    && c.status == 0 && c.params
    && (c.cmd, c.paramsSize) in {(GPU_GET_ATTACHED_IDS, ATTACHED_PARAMS_SIZE), (GPU_GET_PROBED_IDS, PROBED_PARAMS_SIZE)}
  }

  /** Whatever parameter size a driver encodes in the request, it is the same request. */
  lemma {:induction false} EncodedSizeIsIgnored(c: Call, size: bv64)
    ensures Enumerates(c.(req := IocNoSize(c.req) | (size & IOC_SIZE_FIELD))) <==> Enumerates(c)
  {
    assert ((c.req & !IOC_SIZE_FIELD) | (size & IOC_SIZE_FIELD)) & !IOC_SIZE_FIELD == c.req & !IOC_SIZE_FIELD;
  }

  /** The answer's `ids` are filtered where it is an enumeration, and no other answer is touched. */
  method RewriteAttachedIds(c: Call, ids: array<Id>, keep: Keep)
    requires ids.Length == MAX_ATTACHED_GPUS
    modifies ids
    ensures ids[..] == if Enumerates(c) then Filtered(old(ids[..]), keep) else old(ids[..])
  {
    if c.rc != 0 || IocNoSize(c.req) != IocNoSize(NV_RM_CONTROL_REQUEST) || !c.arg {
      return;
    }
    if c.fd.Other? {
      return;
    }
    if c.status != 0 || !c.params {
      return;
    }
    if (c.cmd == GPU_GET_ATTACHED_IDS && c.paramsSize == ATTACHED_PARAMS_SIZE)
       || (c.cmd == GPU_GET_PROBED_IDS && c.paramsSize == PROBED_PARAMS_SIZE) {
      FilterIds(ids, keep);
    }
  }

  predicate SomeKept(live: seq<Id>, keep: Keep) {
    exists id :: id in live && keep(id)
  }

  predicate SomeLeftOut(live: seq<Id>, keep: Keep) {
    exists id :: id in live && !keep(id)
  }

  lemma PaddedTail(kept: seq<Id>, n: nat)
    ensures kept <= kept + Padding(n) && forall k :: |kept| <= k < |kept| + n ==> (kept + Padding(n))[k] == 0xFFFF_FFFF
  {
  }

  /**
   A filtered answer is as long as it was. Where some of its ids are kept and some not it is those
   kept, and the sentinel in every slot after them; it is what it was in every other case.
   */
  lemma {:induction false} FilteredExactly(ids: seq<Id>, keep: Keep)
    ensures |Filtered(ids, keep)| == |ids|
    ensures SomeKept(Live(ids), keep) && SomeLeftOut(Live(ids), keep) ==>
      var kept, r := Picked(Live(ids), Places(Live(ids), keep)), Filtered(ids, keep);
      kept <= r && forall k :: |kept| <= k < |r| ==> r[k] == 0xFFFF_FFFF
    ensures !(SomeKept(Live(ids), keep) && SomeLeftOut(Live(ids), keep)) ==> Filtered(ids, keep) == ids
  {
    var kept := Kept(Live(ids), keep);
    KeptIsSubsequence(Live(ids), keep);
    KeptSome(Live(ids), keep);
    PaddedTail(kept, |ids| - |kept|);
  }

  lemma KeptSome(ids: seq<Id>, keep: Keep)
    ensures Kept(ids, keep) != [] <==> SomeKept(ids, keep)
    ensures |Kept(ids, keep)| < |ids| <==> SomeLeftOut(ids, keep)
  {
    if kept :| kept in ids && keep(kept) {
      assert kept in Kept(ids, keep);
    }
    if Kept(ids, keep) != [] {
      assert Kept(ids, keep)[0] in Kept(ids, keep);
    }
  }

  /** Only a successful attached or probed enumeration of the layout it has, by the control ioctl and on no other device, is filtered. */
  lemma {:induction false} EnumeratesExactly(c: Call)
    ensures Enumerates(c) <==>
      && c.rc == 0 && c.arg && c.fd != Other && c.status == 0 && c.params
      && c.req & 0xFFFF_FFFF_C000_FFFF == 0xC000_462A
      && ((c.cmd == 0x201 && c.paramsSize == 128) || (c.cmd == 0x214 && c.paramsSize == 256))
  {
    assert !IOC_SIZE_FIELD == 0xFFFF_FFFF_C000_FFFF;
    assert NV_RM_CONTROL_REQUEST & 0xFFFF_FFFF_C000_FFFF == 0xC000_462A;
  }
}

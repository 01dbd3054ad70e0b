/** The packed words that `goes/elib/loop/poller.go` changes with compare and swap.
  *
  * A node's word holds a two-bit state, a 31-bit activity count and a 31-bit suspend count; the
  * loop's word holds a 31-bit count of active pollers above a wait bit. Both packings are one to one,
  * so comparing packed words compares exactly the triples and pairs that `PollerProtocol` uses.
  */
module PollerWords {
  const COUNT_MASK: bv32 := 0x7fff_ffff

  function MakeNodePollerState(active: bv32, suspend: bv32, state: bv64): bv64 {
    state | (((active & COUNT_MASK) as bv64) << 2) | (((suspend & COUNT_MASK) as bv64) << 33)
  }

  function StateOf(x: bv64): bv64 {
    x & 3
  }

  function ActiveOf(x: bv64): bv32 {
    (((x >> 2) & 0xffff_ffff) as bv32) & COUNT_MASK
  }

  function SuspendOf(x: bv64): bv32 {
    (((x >> 33) & 0xffff_ffff) as bv32) & COUNT_MASK
  }

  lemma NodeUnpacksPacked(active: bv32, suspend: bv32, state: bv64)
    requires active <= COUNT_MASK && suspend <= COUNT_MASK && state <= 3
    ensures var x := MakeNodePollerState(active, suspend, state);
            StateOf(x) == state && ActiveOf(x) == active && SuspendOf(x) == suspend
  {
  }

  lemma NodePacksUnpacked(x: bv64)
    ensures MakeNodePollerState(ActiveOf(x), SuspendOf(x), StateOf(x)) == x
  {
  }

  function MakeActivePollerState(nActive: bv32, eventWait: bool): bv32 {
    (nActive << 1) | (if eventWait then 1 else 0)
  }

  lemma LoopUnpacksPacked(nActive: bv32, eventWait: bool)
    ensures var x := MakeActivePollerState(nActive, eventWait);
            (x & 1 != 0) == eventWait && (x >> 1 == nActive <==> nActive <= COUNT_MASK)
  {
  }

  lemma LoopPacksUnpacked(x: bv32)
    ensures MakeActivePollerState(x >> 1, x & 1 != 0) == x
  {
  }
}

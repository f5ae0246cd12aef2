/**
  The pure half of the scanner's reassembly protocol: how one parsed chunk is merged
  into the chunk map, how the total is adopted, when the map counts as complete, how
  the full text is assembled and how the progress status is worded.
*/
module Reassembly {
  import opened Options
  import opened ChunkCodec

  /** The `scannedChunks` object: part number to content. */
  type ChunkMap = map<nat, string>

  const ReadyMessage: string := "ready to scan..."
  const SuccessMessage: string := "\U{2705} All parts scanned and assembled!"
  const CameraFailureMessage: string := "\U{1F6AB} Failed to start camera. Check browser permissions."

  /** JavaScript truthiness of the `totalParts` cell: `null` and `0` both read as "no total yet". */
  predicate HasTotal(t: Option<nat>) {
    t.Some? && t.value != 0
  }

  /** JavaScript truthiness of `prev[part]`: a missing key and the empty string are both falsy. */
  predicate Occupied(m: ChunkMap, part: nat) {
    part in m && m[part] != ""
  }

  /**
    The `setScannedChunks` updater: an occupied part is left alone, otherwise the part is
    set to the chunk's content. Only that one key can change.
  */
  function MergeChunk(m: ChunkMap, c: Chunk): ChunkMap {
    if Occupied(m, c.part) then m else m[c.part := c.content]
  }

  /** `if (!totalParts) setTotalParts(total)`: the total is taken only while none is held. */
  function AdoptTotal(t: Option<nat>, c: Chunk): Option<nat> {
    if HasTotal(t) then t else Some(c.total)
  }

  /** The chunk map after merging `cs` in arrival order. */
  function MergeAll(m: ChunkMap, cs: seq<Chunk>): ChunkMap {
    if cs == [] then m else MergeChunk(MergeAll(m, cs[..|cs| - 1]), cs[|cs| - 1])
  }

  /** The total after offering `cs` in arrival order. */
  function AdoptAll(t: Option<nat>, cs: seq<Chunk>): Option<nat> {
    if cs == [] then t else AdoptTotal(AdoptAll(t, cs[..|cs| - 1]), cs[|cs| - 1])
  }

  /** The completion test: a total is held and the number of keys equals it. */
  predicate IsComplete(m: ChunkMap, t: Option<nat>) {
    HasTotal(t) && |m| == t.value
  }

  /** `scannedChunks[i]` in a `join('')`: a missing part reads as the empty string. */
  function Lookup(m: ChunkMap, k: nat): string {
    if k in m then m[k] else ""
  }

  /** `Array.from({ length: n }, (_, i) => scannedChunks[i + 1])`. */
  function Slots(m: ChunkMap, n: nat): (s: seq<string>)
    ensures |s| == n
    ensures forall i :: 0 <= i < n ==> s[i] == Lookup(m, i + 1)
  {
    seq(n, i requires 0 <= i < n => Lookup(m, i + 1))
  }

  /** `join('')`: the strings one after another, with no separator. */
  function Concat(ss: seq<string>): string {
    if ss == [] then "" else ss[0] + Concat(ss[1..])
  }

  /** The full text: parts `1..n` in index order. */
  function Assemble(m: ChunkMap, n: nat): string {
    Concat(Slots(m, n))
  }

  /** The status line while a total is held and the key count differs from it. */
  function ProgressMessage(n: nat, total: nat): string {
    "\U{1F4E6} " + Decimal(n) + " / " + Decimal(total) + " parts scanned ("
      + IntString(total - n) + " remaining)"
  }

  /** The part numbers carried by `cs`. */
  function Parts(cs: seq<Chunk>): (r: set<nat>)
    ensures |r| <= |cs|
  {
    if cs == [] then {} else Parts(cs[..|cs| - 1]) + {cs[|cs| - 1].part}
  }

  /** The chunks carry pairwise distinct parts, none of them already a key of `m`. */
  predicate FreshParts(m: ChunkMap, cs: seq<Chunk>) {
    |Parts(cs)| == |cs| && Parts(cs) !! m.Keys
  }

  /** The part numbers `1..n`. */
  function PartRange(n: nat): (r: set<nat>)
    ensures forall k :: k in r <==> 1 <= k <= n
    ensures |r| == n
  {
    if n == 0 then {} else PartRange(n - 1) + {n}
  }

  /** The chunks the sender's parts `1..|contents|` produce when they arrive in the order `order`. */
  function Arrivals(contents: seq<string>, order: seq<nat>): (cs: seq<Chunk>)
    requires forall i :: 0 <= i < |order| ==> 1 <= order[i] <= |contents|
    ensures |cs| == |order|
    ensures forall i :: 0 <= i < |order| ==>
      cs[i] == Chunk(order[i], |contents|, contents[order[i] - 1])
  {
    seq(|order|, i requires 0 <= i < |order| => Chunk(order[i], |contents|, contents[order[i] - 1]))
  }

  /** `order` lists each of the parts `1..n` exactly once. */
  predicate IsOrdering(order: seq<nat>, n: nat) {
    && |order| == n
    && (forall i :: 0 <= i < |order| ==> 1 <= order[i] <= n)
    && (forall i, j :: 0 <= i < j < |order| ==> order[i] != order[j])
  }

}

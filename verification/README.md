# Primitive partition identities: the digital tree and the extension step

This project models the core of `src/ppi/ppi.cpp` of 4ti2 in Dafny and proves properties of that model. The file enumerates the
primitive partition identities (PPIs) of degree `n+1` from those of degree `n`, following
Urbaniak's algorithms 4.3.8 and 4.3.11. A partition identity
`a1 + ... + ak = b1 + ... + bl` over `1..n` is stored as the integer vector
`v` with `v(i)` = (number of `i` on the left) − (number on the right). Its
weighted sum `Σ i·v(i)` is therefore zero.

The model covers:

- **the digital tree** (`DigitalTree`, `InnerNode`) that stores the known identities for
  inclusive orthogonal range queries:
  - inner nodes hold a child array that grows on demand (`Get`/`Put`);
  - insertion descends from the last coordinate and splits a leaf with a chain of inner nodes;
  - `Finish` records, for every occupied slot, the distance to the next one (its *advance*) and fills every empty slot with a
    shared placeholder of the right advance;
  - the search hops from slot to slot by advances.

  Files: `trie_nodes.dfy`, `trie_insert.dfy`, `trie_finish.dfy`, `trie_search.dfy`, `digital_tree.dfy`.
- **conformal division** (`HilbertDivide`) with C's truncating `/` and `INT_MAX` (`hilbert.dfy`).
- **the reducibility tests**, phrased as range queries (`IsReducible`, and the two boxes of
  `RaisePPI`) (`reduction.dfy`).
- **the attribute bits**: which pairs `(j, n+1-j)` a stored vector still needs to be raised at (`SetupAttribute`), and
  *source erasing* (`EraseSource`), which clears the bit of every stored vector whose raise is already known
  (`attributes.dfy`).
- **the extension step** (`RaisePPI`, `ExtendPPI`) (`extend.dfy`). It:
  1. lifts the input identities (appending a zero) into the tree and into the first pool;
  2. adds the boundary identities `n+1 = p + (n+1-p)`;
  3. builds the identities with `t` parts equal to `n+1` stage by stage. Each one is a raise
     `w = v + e(n+1) − e(j) − e(n+1-j)` of a vector of the stage below at a pair whose bit that vector's attribute holds, and it is kept when sign
     irreducible or when neither range query finds a reducer.

Vectors are `seq<int>` indexed from 0; the source's 1-based `v(i)` is `v[i-1]`.
The trie of `VectorSet(n)` has dimension `n+1`, so it holds the lifted vectors. Its levels run from `Dimension-1` (the last
coordinate, at the root) down to 0. The hash sets `Pold`/`Pnew` with their
attribute words become `map<Vector, Attribute>`, and the attribute word is modelled by the set of its set bits.

## Model

| member | source | states |
|---|---|---|
| TrieNodes.NewInner | src/ppi/ppi.cpp:68 | a new inner node over `[from, to]` has every slot empty |
| TrieNodes.Get | src/ppi/ppi.cpp:70-74 | a key outside the child array reads as empty; inside, it reads the child at `key + Delta` |
| TrieNodes.Put | src/ppi/ppi.cpp:77-93 | after `Put(k, c)`, `Get(k)` is `c` and every other key reads as before; the key range grows just enough to include `k` on either side |
| TrieNodes.PointsPut | src/ppi/ppi.cpp:77-93 | replacing a slot by a node that keeps its vectors adds exactly that node's vectors |
| TrieNodes.ValidPut | src/ppi/ppi.cpp:77-93 | putting a well-keyed child keeps the node well keyed (every vector sits under its own coordinate at each level) |
| TrieNodes.ValidPoint | src/ppi/ppi.cpp:154-160 | every stored vector has the tree's dimension and sits in the slot of its coordinate at this level |
| TrieInsert.Chain | src/ppi/ppi.cpp:225-239 | splitting a leaf always yields an inner node (its contents are stated by `ChainPoints`, `ChainValid` and `ChainSplitsAtFirstDifference`) |
| TrieInsert.ChainPoints | src/ppi/ppi.cpp:225-239 | the chain built when a leaf is split holds exactly the old and the new vector |
| TrieInsert.ChainSplitsAtFirstDifference | src/ppi/ppi.cpp:225-234 | the chain separates the two vectors exactly at the first level, going down, where they differ |
| TrieInsert.ChainValid | src/ppi/ppi.cpp:225-239 | the chain is well keyed |
| TrieInsert.StoredIffLocated | src/ppi/ppi.cpp:216-256 | a vector is stored iff following its own coordinates from the node ends at a leaf holding it |
| TrieInsert.AbsentInsertDefined | src/ppi/ppi.cpp:226-234 | for a vector not yet stored, the split never has to go below level 0 |
| TrieInsert.BottomLeafIsStored | src/ppi/ppi.cpp:226-234 | at level 0 a leaf in the vector's slot can only be the vector itself, so only a duplicate reads index −1 |
| TrieInsert.InsertAt | src/ppi/ppi.cpp:216-256 | the descent returns an inner node in place of the one it entered (what it stores is stated by `InsertPoints`, `InsertValid` and `InsertKeys`) |
| TrieInsert.InsertPoints | src/ppi/ppi.cpp:216-256 | insertion adds exactly the new vector to the stored set |
| TrieInsert.InsertValid | src/ppi/ppi.cpp:216-256 | insertion keeps every vector reachable by its own coordinates |
| TrieInsert.InsertKeys | src/ppi/ppi.cpp:216-256 | insertion of vectors with coordinates in `[-b, b]` keeps every key in `[-b, b]` |
| DigitalTrees.Empty | src/ppi/ppi.cpp:111-114 | a new tree (root over the single key 0) stores nothing and is ready for insertion |
| DigitalTrees.Insert | src/ppi/ppi.cpp:216-256 | the stored set becomes old ∪ {v}; the tree stays well keyed; the coordinate bound is kept |
| DigitalTrees.AbsentIsInsertable | src/ppi/ppi.cpp:216-256 | a vector of the right length that is not yet stored can always be inserted |
| DigitalTrees.StoredIsReachable | src/ppi/ppi.cpp:216-256 | a vector is in the tree iff the descent along its coordinates finds it |
| DigitalTrees.Finish | src/ppi/ppi.cpp:206-214 | finishing adds and removes no node and no vector; on a bounded tree it leaves every slot with the right advance, so the tree is ready for queries |
| DigitalTrees.RangeSearchFindsBoxVector | src/ppi/ppi.cpp:120-122 | the query answers false iff some stored vector lies in the inclusive box `[lo, hi]` and the visitor says stop |
| TrieFinish.AdvanceTableGet | src/ppi/ppi.cpp:208-211 | the shared placeholder table holds a placeholder of advance `d` at key `d` for `1 <= d <= 2*Dimension+1`, and nothing elsewhere |
| TrieFinish.FillAdvanceGet | src/ppi/ppi.cpp:210-211 | the filling loop puts placeholder `d` at key `d` for `d <= i` and leaves other keys alone |
| TrieFinish.DoFinish | src/ppi/ppi.cpp:192-204 | finishing an inner node keeps its offset `Delta` and its number of slots (the rest is stated by `FinishKeepsSkeleton` and `FinishIsFinished`) |
| TrieFinish.FinishSlots | src/ppi/ppi.cpp:194-203 | the right-to-left pass returns one slot per index and never changes a slot it has already finished to the right of the current one |
| TrieFinish.FinishKeepsSkeleton | src/ppi/ppi.cpp:192-204 | `DoFinish` keeps every leaf, inner node and key; it changes only advances and fills empty slots with placeholders |
| TrieFinish.NextRealOfFinished | src/ppi/ppi.cpp:195-201 | after finishing, the next real (non-placeholder) slot from any index is the next slot that was occupied before |
| TrieFinish.FinishIsFinished | src/ppi/ppi.cpp:192-204 | in a tree with keys in `[-Dimension, Dimension]`, every slot's advance is the distance to the next occupied slot (or to the end), at every level |
| TrieFinish.FinishedIgnoresAdvance | src/ppi/ppi.cpp:199 | the advance a node gets from its parent does not affect the finished state of its own slots |
| TrieFinish.SkeletonPoints | src/ppi/ppi.cpp:192-204 | two trees with the same skeleton store the same vectors |
| TrieFinish.SkeletonValid | src/ppi/ppi.cpp:192-204 | two trees with the same skeleton are equally well keyed |
| TrieSearch.LeafInRange | src/ppi/ppi.cpp:168-175 | the coordinate loop at a leaf accepts iff all coordinates below the current level lie in the box |
| TrieSearch.DoSearch | src/ppi/ppi.cpp:154-189 | the search of a node answers false only when the visitor says stop |
| TrieSearch.Scan | src/ppi/ppi.cpp:161-187 | the scan of the slots from `ci` answers false only when the visitor says stop |
| TrieSearch.SearchFindsBoxPoint | src/ppi/ppi.cpp:154-189 | with a visitor that always stops, the search returns false iff some stored vector lies in the box at every level up to this one |
| TrieSearch.ScanFindsHit | src/ppi/ppi.cpp:161-187 | hopping by advances over `count` slots from `ci` misses no slot that leads to a vector in the box |
| TrieSearch.NoHitInsideAdvance | src/ppi/ppi.cpp:184 | the slots skipped by an advance are placeholders and hold no vector |
| TrieSearch.PointGivesHit | src/ppi/ppi.cpp:158-160 | a stored vector in the box lies in a slot inside the clipped range `[mi, ma]` |
| TrieSearch.HitGivesPoint | src/ppi/ppi.cpp:164-183 | a slot in the clipped range that leads to a match holds a stored vector in the box |
| TrieSearch.SearchAccepts | src/ppi/ppi.cpp:154-189 | with a visitor that always continues, the search returns true |
| Hilbert.TruncDiv | src/ppi/ppi.cpp:322 | C's `/`: the remainder is smaller than the divisor and has the dividend's sign |
| Hilbert.FitsAtQuotient | src/ppi/ppi.cpp:319-328 | where the signs match, the factors that fit at one position are exactly those up to the truncated quotient |
| Hilbert.HilbertDivide | src/ppi/ppi.cpp:314-331 | the result is 0 unless `y` is conformal to `z`; otherwise it is the largest `f <= INT_MAX` with `f*y` conformally under `z` |
| Reduction.LastNonzero | src/ppi/ppi.cpp:377-378 | the position found is nonzero and every later one is zero |
| Reduction.ReducibleBox | src/ppi/ppi.cpp:374-389 | a vector lies in the box iff it has `z`'s length, is conformal to `z` and is at least 1 at `z`'s last nonzero position |
| Reduction.IsReducible | src/ppi/ppi.cpp:372-392 | true iff some stored `y` is conformal to `z` with `y(p) >= 1` at the last nonzero position `p` |
| Reduction.NegativeLeadIsNeverReducible | src/ppi/ppi.cpp:388-391 | when `z`'s last nonzero entry is negative, the box is empty and no reducer is found |
| Reduction.RaiseBox | src/ppi/ppi.cpp:491-503 | a vector lies in the raise box iff its last coordinate is 0, it is conformal to `w`, and it equals `w` at the pinned position (`k` if `w(k) < 0`, else `j`) |
| Reduction.NegatedRaiseBox | src/ppi/ppi.cpp:506-513 | a vector lies in the second box iff its last coordinate is 0, its negation is conformal to `w`, and its negation equals `w` at the pinned position, that is iff its negation lies in the first box |
| Reduction.RaiseQueries | src/ppi/ppi.cpp:505-516 | both queries pass iff no stored vector, of either sign, lies in the raise box |
| Attributes.SetupPairs | src/ppi/ppi.cpp:413-424 | after the first `m` pairs, bit `j-1` is set iff `v(j)` or `v(n+1-j)` is positive; with negatives, bit `16+j-1` is set iff one of them is negative |
| Attributes.SetupAttribute | src/ppi/ppi.cpp:406-426 | the same for all pairs `1..n/2`, and no other bit |
| Attributes.ErasePositive | src/ppi/ppi.cpp:434-451 | a bit `i-1` is cleared exactly in the stored source `w − e(n+1) + e(i) + e(n+1-i)` of a touched pair; keys unchanged |
| Attributes.EraseNegative | src/ppi/ppi.cpp:452-469 | the same for bit `16+i-1` of the negated source |
| Attributes.EraseSource | src/ppi/ppi.cpp:428-471 | only clears bits; the keys never change; nothing changes unless `irreducible`; exactly the source bits are cleared |
| Attributes.ErasedBitsLeadToW | src/ppi/ppi.cpp:434-469 | every erased bit belongs to a vector whose raise at that pair (of itself or its negation) is `w` |
| Vectors.Neg | src/ppi/ppi.cpp:47-52 | the negation has the same length and negates every entry |
| Vectors.NegNeg | src/ppi/ppi.cpp:47-52 | negating twice gives the vector back |
| Vectors.NegWeightedSum | src/ppi/ppi.cpp:47-52 | negation negates the weighted sum |
| Vectors.LiftInjective | src/ppi/ppi.cpp:549-551 | appending a zero is injective |
| Vectors.LiftWeightedSum | src/ppi/ppi.cpp:549-551 | appending a zero keeps the weighted sum |
| Vectors.Raise | src/ppi/ppi.cpp:478-479 | the raise keeps the length, and for `j, k <= n` its last coordinate is one more than `v`'s (the other entries and the weighted sum are stated by `RaiseKeepsWeightedSum`) |
| Vectors.Source | src/ppi/ppi.cpp:434-438 | the source keeps the length (that it inverts the raise is stated by `RaiseOfSource` and `SourceOfRaise`) |
| Vectors.RaiseKeepsWeightedSum | src/ppi/ppi.cpp:478-479 | `w = v + e(n+1) − e(j) − e(k)` with `j + k = n+1` keeps the weighted sum, raises the last coordinate by one and changes nothing else |
| Vectors.RaiseOfSource | src/ppi/ppi.cpp:434-438 | raising the source of `w` at pair `i` gives `w` back |
| Vectors.SourceOfRaise | src/ppi/ppi.cpp:434-438 | the source of the raise of `v` at pair `j` is `v` |
| Extend.InsertNew | src/ppi/ppi.cpp:518 | hash-set insertion adds the key and keeps an existing entry's attribute |
| Extend.RaisePPI | src/ppi/ppi.cpp:473-535 | the raise `w` enters `Pnew` iff it is sign irreducible or no stored vector of either sign reduces it; old entries are untouched; a new entry gets the fresh attribute; `Pold` is left alone when `w` is reducible, source-erased when `w` is new, and for an admitted `w` already in `Pnew` source-erased exactly in the sign-irreducible branch |
| Extend.RaisePPIFinds | src/ppi/ppi.cpp:481-529 | after the call, an admitted raise is in `Pnew` |
| Extend.EraseCovered | src/ppi/ppi.cpp:434-469 | every bit source erasing clears selects the raise `w` itself, so the bit is covered once `w` is in `Pnew` |
| Extend.RaisePPICovers | src/ppi/ppi.cpp:473-535 | every `Pold` bit the call clears is covered by the raise it put in `Pnew` |
| Extend.RaisePPIGrows | src/ppi/ppi.cpp:473-535 | each call on `x` (or `Neg(x)`) at a pair whose positive (or negative) bit the attribute of `x` holds only adds that admitted raise to `Pnew` |
| Extend.RaiseAt | src/ppi/ppi.cpp:586-591 | one raise at a pair selected by the attribute of `x` (positive bit for `x`, negative bit for `Neg(x)`) keeps `Pold`'s keys; the only possible new key of `Pnew` is that raise, added only when admitted and in `Pnew` afterwards when admitted; `Pold` gains no bits and every bit it loses is covered |
| Extend.RaiseStep | src/ppi/ppi.cpp:586-591 | the same, with the growth and the cleared bits counted from the start of the vector's raises |
| Extend.RaisePair | src/ppi/ppi.cpp:585-591 | after pair `j` (positive bit, then negative bit), every pair up to `j` selected by the attribute has its admitted raise in `Pnew` |
| Extend.RaiseVector | src/ppi/ppi.cpp:581-592 | raising one stored vector with an attribute no larger than its recorded one keeps `Pold`'s keys and adds to `Pnew` only admitted raises at pairs that attribute selects; for every pair whose bit is set (positive, and negative when negatives are raised) the admitted raise is in `Pnew` afterwards |
| Extend.VisitComplete | src/ppi/ppi.cpp:580-594 | a vector raised by the bits it still had is complete for the attribute it started the stage with, because each bit cleared meanwhile selected a raise already in `Pnew` |
| Extend.Visit | src/ppi/ppi.cpp:580-592 | one iteration of the stage loop: a vector is raised only by bits of its stage-start attribute, and the vectors visited so far are complete for their stage-start attributes |
| Extend.RaisePass | src/ppi/ppi.cpp:580-594 | a stage, in any iteration order, only adds to `Pnew`, with fresh attributes, admitted raises of `Pold`'s vectors at pairs their stage-start attribute selects; and for every vector of `Pold` and every pair whose bit is set in that attribute, the admitted raise is in `Pnew` |
| Extend.Boundary | src/ppi/ppi.cpp:564-573 | the vector of `n+1 = p + (n+1-p)`: 1 at `n+1`, −1 at `p` and at `n+1-p` (−2 when they coincide), 0 elsewhere |
| Extend.BoundaryWeightedSum | src/ppi/ppi.cpp:564-573 | each boundary vector is a partition identity (weighted sum 0) |
| Extend.Boundaries | src/ppi/ppi.cpp:561-575 | the second pool holds exactly the boundary identities `p = 1..(n+1)/2`, each with its attribute without negatives |
| Extend.StoreLifted | src/ppi/ppi.cpp:549-553 | storing one lifted input vector adds it to both the tree and `Pold`, with the attribute with negatives |
| Extend.LiftInput | src/ppi/ppi.cpp:548-554 | the tree and `Pold` both hold exactly the lifted input; the tree stays bounded |
| Extend.LiftFresh | src/ppi/ppi.cpp:548-554 | a vector not yet seen lifts to a vector not yet stored |
| Extend.RaiseOfLayer | src/ppi/ppi.cpp:478-479 | a raise at a pair `(j, n+1-j)` moves a vector from layer `t` to layer `t+1` and keeps its weighted sum |
| Extend.RaisedShape | src/ppi/ppi.cpp:478-479 | a raise of a stage-`t` vector is in stage `t+1` and is balanced when its source is |
| Extend.DerivedFromMore | src/ppi/ppi.cpp:596-599 | a raise selected from a layer stays derived from any larger set of vectors |
| Extend.PoolDerived | src/ppi/ppi.cpp:577-618 | a raise made from a pool whose attributes are those the vectors were stored with is derived from the layer holding the pool |
| Extend.DerivedMore | src/ppi/ppi.cpp:596-599 | a derivation stays valid as more vectors join the result |
| Extend.FirstStage | src/ppi/ppi.cpp:577-599 | after step (3), the state-between-stages invariant holds for the lifted input and the first stage |
| Extend.NextLayer | src/ppi/ppi.cpp:603-618 | every vector of stage `t+1` is derived from stage `t` and is balanced when stage `t` is |
| Extend.GrowsFresh | src/ppi/ppi.cpp:518-529 | a pool grown by raises holds only fresh attributes without negative bits |
| Extend.FirstComplete | src/ppi/ppi.cpp:579-594 | after step (3) every lifted input vector has all its selected raises (with negatives) that are admitted in the result so far |
| Extend.NextComplete | src/ppi/ppi.cpp:603-618 | after the stage of layer `t`, the vectors of that layer have all their selected admitted raises in the result too |
| Extend.NextStage | src/ppi/ppi.cpp:603-623 | one pass of step (4) keeps the invariant |
| Extend.ExtendPPI | src/ppi/ppi.cpp:537-628 | the result has entries of length `n+1` with last coordinate in `0..n`. Its stage 0 is exactly the lifted input. It holds every boundary identity. It is balanced when the input is. Every vector above stage 0 is a boundary identity or an admitted raise of a vector `x` one stage below at a pair the attribute `x` was stored with selects (a positive pair, or at stage 0 a negative pair raised from `Neg(x)`). Conversely, for every vector of a stage below `n` and every pair selected by its attribute (with the negative pairs at stage 0), the admitted raise is in the result |

## Left out

- `main`, `writeppi`, `reportx`, `operator<<`, the statistics counters and the `cerr` messages are left out. They print or count and do not affect the sets computed.
- The `VectorRepository`, `ClearVectorRepository`, `Destroy`, `DestructiveStore` and `DestructiveCopy` are left out. They manage memory. The shared placeholder nodes are modelled as values.
- The `inserthack` conversion `VectorSet::operator SimpleVectorSet` and the `hash<Vector>` functor are left out. The conversion is not used by the extension step, and hashing does not affect which vectors a set holds.
- Hash-set iteration order: the model does not fix it. `RaisePass` and `LiftInput` pick the next vector by an arbitrary choice, and their contracts hold for every order.
- Fixed-width integers:
  - vector entries are unbounded integers;
  - the node fields `advance` (`unsigned char`) and `Delta` (`signed char`) are unbounded too.
  With keys in `[-(n+1), n+1]` and `n <= 33`, advances stay at most `2n+3` and `Delta` at most `n+1`, so neither wraps.
- The attribute word is modelled as the set of its set bits. The limit `n/2 <= 16` of the two 16-bit halves is a precondition.
- TrieSearch.DoSearch: the source passes the node being scanned, not the leaf found, to the visitor. The model therefore requires a visitor that ignores its argument, as `False` does.
- TrieSearch.DoSearch: there is no null check on a slot, so the search requires a finished tree (`QueryState`).
- DigitalTrees.Finish: placeholders exist only for gaps up to `2*Dimension+1`. A finished tree is promised only when keys and coordinates lie in `[-Dimension, Dimension]`.
- DigitalTrees.Insert: inserting a duplicate whose twin sits at level 0 would read index −1. Insertion therefore requires `InsertDefined`, which holds for every vector not yet stored.
- Hilbert.HilbertDivide requires `|z| <= |y|`, because the source reads `y[i]` for every index of `z`.
- Reduction.IsReducible requires a nonzero `z`, because the source has no last nonzero position to pin for a zero vector.
- `IsReducible` and `HilbertDivide` are not called by `ExtendPPI`. `RaisePPI` builds its own boxes; the two functions are modelled on their own.
- Extend.ExtendPPI: it is not proved that the result is exactly the set of primitive partition identities of degree `n+1`. The contracts state the stage structure, the boundary identities and balance. They state how each vector was derived (an admitted raise at a pair its source's stored attribute selects), and that every admitted raise the attributes select was made. They do not state the mathematical completeness or primitivity of the enumeration.
- Vectors.Raise: its own contract states only the length and the last coordinate. The entries at `j` and `k`, the untouched entries and the weighted sum are stated by `RaiseKeepsWeightedSum`, to keep the many proofs that use `Raise` small.
- Vectors.Source: its own contract states only the length. Its meaning, the inverse of a raise in both directions, is stated by `RaiseOfSource` and `SourceOfRaise`.
- TrieInsert.InsertAt: its own contract states only that an inner node comes back. What it stores and how it is keyed is stated by `InsertPoints`, `InsertValid` and `InsertKeys`, which recurse on it.
- TrieInsert.Chain: its own contract states only that an inner node comes back. Its contents are stated by `ChainPoints`, `ChainValid` and `ChainSplitsAtFirstDifference`.
- TrieFinish.DoFinish: its own contract states only the offset and the slot count. The skeleton and the advances are stated by `FinishKeepsSkeleton` and `FinishIsFinished`.
- Extend.ExtendPPI requires input coordinates in `[-(n+1), n+1]`, so that the finished tree has a placeholder for every gap. The source relies on this without checking it.

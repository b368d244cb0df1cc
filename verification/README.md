# Model of the conversion layer

A Dafny model of `co3`, a library that passes Rust values to foreign code and
back, and of the compile-time passes that prepare its declarations. `dafny verify
dfyconfig.toml` checks everything.

The parts, bottom up:

- `Wrappers`, `Types`, `Niches`, `Memory`, `Codec`, `ElementLoops`: type descriptors, Rust
  values and C carriers; encoding, checked and unchecked decoding, validation
  followed by reinterpretation, and the reserved carriers (niches) that encode
  `None`. Foreign code may put any bit pattern into a carrier. Which carriers
  values have and which words, tags and headers decode is spelled out in
  `Codec.ScalarCarriers`, `Codec.TaggedCarriers`, `Codec.ElementCarriers`,
  `Codec.WordsThatDecode` and `Codec.TagsThatDecode`, and which carriers a native
  option takes for `None` in `Codec.AbsentCarriers`, `Codec.AbsentTags` and
  `Codec.AbsentArrays`.
- `SharedMemory`, `SoftStores`, `SyncLaws`, `WritePaths`: the stores that hold the C copies of
  mutably borrowed Rust values. A store tree is a datatype whose nodes refer to
  the objects that encoding, foreign code and `sync` update in place; each
  method is proved against a recursive meaning of the tree, and the laws about
  that meaning are stated path by path.
- `Lending`, `SoftCalls`: whole calls. Memory is lent, foreign code edits
  everything it can reach, every store is synchronised, and the outcome for
  every borrowed value is stated without mentioning stores. What can be lent and
  what foreign code may leave behind is in `Lending.LendableApart` and
  `Lending.AnyEditFits`.
- `StoreReuse`, `DecodeReuse`: a single store over arbitrary sequences of use,
  reuse, failing builders, synchronisation and drop.
- `DecodedVectors`, `VectorStores`: the other direction, Rust code that mutably
  borrows vectors held in foreign memory, nested to any depth. Plain elements are
  those of types in which no vector occurs (`DecodedVectors.PlainTypesAre`).
- `CfgAttr`: expansion of conditional attributes into gated variants. The simple
  forms of attributes are in `CfgAttr.CfgForm`, `CfgAttr.OtherForm` and
  `CfgAttr.ErrorForms`.
- `DispatchGroups`, `DispatchBindings`, `DispatchMultiplicity`, `DispatchClosure`:
  products of dispatch targets, their split into static and dynamic parts, how
  often the split yields each assignment, and their projection. The order of the
  maps is in `DispatchBindings.TextLessIs` and `DispatchBindings.PutReplaces`.
- `Packing`: moving impls into type declarations and giving every type one drop.
- `Lifetimes`: normalisation of lifetimes under nested binders.

What the model shows about the program beyond its documentation:

- A vector of vectors that Rust code borrowed from foreign memory and did not
  touch fails to synchronise as soon as an inner vector has spare capacity
  (`DecodedVectors.UneditedSyncsIffTight`, `DecodedVectors.SpareCapacityInsideFails`).
- Dropping or reusing an armed store does not write its own original but still
  synchronises the stores of its parts, so that a drop can write originals
  (`WritePaths.DropSynchronisesParts`; a tree for which it does is in
  `WritePaths.DropWritesInnerPlace`). `WritePaths.DropIsSilent` says when it
  writes nothing.
- Values of types that are lent by moving them out keep the default if their
  carrier comes back invalid or is never synchronised (`SoftCalls.SoftCall`,
  `SoftCalls.AbandonCall`).
- The list of a `for<..>` binder is not visited, so a free lifetime in it is
  not normalised (`Lifetimes.BinderListsKeepFreeLifetimes`).
- An impl that selects types through a parameter named like a declared type is
  packed as an impl of that type and no longer counts as selecting
  (`Packing.DropsAfterSelf`). Packing therefore accepts declarations in which a
  type has two drops (`Packing.AcceptsTwoDrops`); `Packing.PackItems` gives the
  exact condition on the declarations as they are written.
- Projecting dispatch groups drops a group of which no parameter is needed, even
  one without targets, so that groups without any combination can gain some
  (`DispatchClosure.DroppingAnEmptyGroup`); `DispatchClosure.ProjectionRestricts`
  gives the exact condition under which the projection is the restriction of the
  product.

Preconditions are those of the program: exclusive borrows do not overlap, values
belong to their types, usable vector headers point at initialised elements,
parameters do not repeat across dispatch groups, and targets have the arity of
their parameters.

## Model

| member | source | states |
|---|---|---|
| Niches.HalvingIsFirstField | src/tuple.rs:555-586 | For tuples of any length, taking the niche of a tuple as the niche of the pair of its halves (split at n/2) puts the niche of the first field that has one in that field and zero bytes in every other field. |
| Niches.HalvingTestsFirstField | src/tuple.rs:555-586 | For every carrier of a tuple the test for the niche, which also works through the halves, looks at exactly the first field that has a niche. |
| Niches.NicheRecognised | src/niche.rs:35-43 | For every type that has a niche the reserved carrier has the shape of the type's carrier and the test recognises it. |
| Codec.NicheNeverDecodes | src/niche.rs:159-270 | A carrier that the niche test recognises, whatever its other bits, decodes to no value: by induction over bools, chars, non-zero integers, tuples, arrays, vectors, nested native options and tagged carriers. |
| Codec.NicheLaw | src/niche.rs:35-43 | The niche law: the niche is recognised and the encoding of a value never is. |
| Codec.RoundTrip | src/stored.rs:1004-1095 | Every value of every type descriptor survives encoding followed by checked decoding, decoding part by part and unchecked decoding; native and tagged options and results, tuples, arrays and vectors nest freely. |
| Codec.DecodeSound | src/stored.rs:1655-1795 | Decoding any bit pattern yields either nothing or a value that belongs to the type. |
| Codec.ValidateThenTransmute | src/transmute.rs:229-253 | For stable types validation accepts exactly the carriers that element-wise decoding accepts, and reading the memory of an accepted carrier as the Rust value gives the same value. |
| Codec.RobustIsValid | src/stored.rs:1934-1949 | Types without trap values accept every bit pattern, which is why arrays of them are reinterpreted without a check. |
| Codec.OthersHaveTraps | src/stored.rs:1934-1949 | Every other stable type, empty arrays aside, has a bit pattern that validation refuses, so the check may be skipped for no more types. |
| Codec.FastPathRefinesParts | src/stored.rs:1614-1645 | The short cuts of checked decoding (reinterpreting robust arrays, validating stable vectors in place) change no result, including for null vectors and lengths above capacity. |
| Codec.UncheckedAgrees | src/stored.rs:1647-1653 | On every carrier that checked decoding accepts, unchecked decoding yields the same value. |
| Codec.NativeOptions | src/niche.rs:173-201 | A native option of a bool, char, non-zero integer, vector, tagged option or result, or of one or two options of a bool is carried like its payload, with `None` in the reserved carrier of that type (2, 0x110000, 0, the null pointer, tag 2, 3 and 4); one of an integer or a unit has a tag. |
| Codec.NativeResults | src/result.rs:150-190 | A native result with a zero-sized side is carried like its other side if that has such a reserved carrier, which stands for the side without contents; otherwise it has a tag. |
| Codec.NativeOptionsOfArrays | src/niche.rs:258-267 | The `None` of a native option of an array is the reserved carrier of the element type in every position; an empty array has none and gets a tag. |
| Codec.NativeOptionsOfTuples | src/tuple.rs:555-586 | The `None` of a native option of a tuple of any length is the niche of the first field that has one with zeros elsewhere. |
| Codec.VectorsThatDecode | src/stored.rs:1614-1645 | A vector header decodes exactly if its pointer is not null, its length fits its capacity and every element decodes, and then to these elements in order with that capacity. |
| ElementLoops.EncodeElements | src/stored.rs:2417-2431 | The encoding loop yields, in order, carriers that decode to exactly the given elements. |
| ElementLoops.DecodeVecElements | src/stored.rs:2455-2474 | The decoding loop hands every carrier to a decoder, also after a failure, and yields all decoded elements exactly if none failed. |
| ElementLoops.DecodeArrayElements | src/stored.rs:2561-2573 | Arrays decode all elements before looking for failures; the result is all of them or nothing. |
| ElementLoops.ValidateElements | src/transmute.rs:367-376 | The scan with early exit accepts exactly the runs all of whose elements are valid. |
| ElementLoops.DecodeVector | src/stored.rs:1614-1645 | Owned vector decoding in its two forms returns what decoding part by part returns: nothing for a null pointer, a length above capacity or an invalid element, and otherwise the elements with the capacity of the header. |
| SoftStores.SyncStore | src/sync.rs:583-621 | Consuming a tree of stores in place performs exactly the effect that the recursive meaning of the tree prescribes: its success, its last write to every place and the carriers it decodes, in order. |
| SoftStores.FinishSized | src/sync.rs:133-141 | Finishing an armed store decodes its carrier once, synchronises its parts even if that decoding failed, and offers a value to write only if both succeeded. |
| SoftStores.SyncSized | src/sync.rs:234-242 | The original is written exactly if finishing offers a value. |
| SoftStores.SyncAllStores | src/sync.rs:33-45 | The loop over a boxed slice or array of stores synchronises every store, also after a failure, and succeeds exactly if all did. |
| SoftStores.SyncWide | src/sync.rs:571-581 | An edited buffer is copied back into the stores of its elements before those are synchronised. |
| SoftStores.CopyBack | src/mutable.rs:258-262 | The copy-back loop overwrites the slot behind each retained pointer with the element at its position and nothing else; surplus elements or pointers are ignored. |
| SoftStores.SyncTupleStores | src/tuple.rs:159-166 | A tuple of stores is synchronised field by field up to the first failure; the later fields are dropped, the last one first. |
| SoftStores.DropStore | src/sync.rs:250-256 | Dropping a tree decodes armed carriers without writing their originals, but synchronises the stores of their parts. |
| SyncLaws.ValidTreeIsWellArmed | src/sync.rs:519-550 | In a tree whose parts share no object, armed buffers sit over armed element stores and no store occurs twice. |
| SyncLaws.DecodesEachArmedOnce | src/sync.rs:118-141 | Whether a tree of any shape is synchronised or dropped, each armed carrier in it is decoded exactly once and no other carrier is. |
| SyncLaws.ListsInOrder | src/sync.rs:33-45 | Lists of stores are worked off from the front, whether they are synchronised or dropped. |
| SyncLaws.LeftOversFromTheBack | src/tuple.rs:159-166 | The fields of a tuple that are left over after a failure are dropped from the back. |
| SyncLaws.TuplesUpToFailure | src/tuple.rs:159-166 | A tuple whose k-th store is the first to fail decodes the carriers of the stores up to it from the front and those of the others from the back, and fails. |
| SyncLaws.SucceedsIffAllSound | src/sync.rs:583-621 | Synchronisation succeeds exactly if every store reached along any path does its own share: its edited carrier decodes, its header is unchanged, its buffer is there. |
| SyncLaws.WritesExactlyAlongPaths | src/tuple.rs:159-166 | A place is written exactly if some path leads to it on which every carrier decodes with all of its parts and every earlier tuple field succeeded, and the value left is one that such a path writes. |
| WritePaths.ValidTreesWriteExactly | src/sync.rs:583-621 | In a tree whose parts share no place, synchronising (or dropping) leaves a value in a place exactly if a path writes that value there, and each place has one such path. |
| WritePaths.DropWritesAlongPaths | src/sync.rs:250-256 | Dropping a tree writes a place exactly if some path of the dropped tree writes it, and leaves a value that such a path writes. |
| WritePaths.DropSynchronisesParts | src/sync.rs:118-141 | Dropping any tree writes, in order, what synchronising the parts of its outermost armed carriers writes: none of their own originals and no copied-back value. |
| WritePaths.DropIsSilent | src/sync.rs:250-256 | Dropping writes nothing exactly if synchronising the parts of each outermost armed carrier writes nothing, and certainly if those parts refer to no places. |
| WritePaths.DropWritesInnerPlace | src/sync.rs:250-256 | For every armed store inside an armed store whose carrier is valid, dropping the outer one writes the inner original and nothing else. |
| Lending.SyncOfEdit | src/mutable.rs:223-265 | For arrays, slices and vectors nested to any depth, after any edit of the carriers synchronising succeeds exactly if every carrier is valid and every header unchanged, and writes exactly the decoded values. |
| Lending.SyncOfVector | src/mutable.rs:693-746 | The elements of a lent vector are restored from the original buffer even if the header was replaced; success also needs the same non-null pointer, length and capacity. |
| Lending.ValuesAreLent | src/mutable.rs:541-583 | Each lent value is set to the decode of its edited carrier if that is valid and is otherwise not written; values that were moved out are the ones that hold the default meanwhile. |
| Lending.UneditedAll | src/mutable.rs:223-265 | If foreign code edits nothing, everything is accepted and every place gets back the value it was lent with. |
| Lending.RobustDecodes | src/mutable.rs:314-350 | Values lent in place are of types that no bit pattern can invalidate. |
| Lending.EditsAreWellTyped | src/sync.rs:234-242 | Whatever bits foreign code stores, a lent value is only ever set to a value of its type. |
| Lending.DropOfEdits | src/sync.rs:571-581 | Stores of lent memory that are dropped instead of synchronised write nothing, whatever was edited; what foreign code changed at once are exactly the arguments that are themselves lent in place. |
| SoftCalls.EncodeElements | src/mutable.rs:243-257 | The builder loop lends every element through a store of its own; the collected carriers and pointers are such that copying the buffer back unedited changes nothing, and no two stores share an object. |
| SoftCalls.EncodeOne | src/mutable.rs:352-386 | Encoding through a copy leaves the value; encoding by moving (lines 598-632) leaves the default in its place. |
| SoftCalls.EncodeVector | src/mutable.rs:693-746 | Lending a vector also lends a header over the buffer and remembers it; the vector's own length and allocation are not touched. |
| SoftCalls.EditStore | src/mutable.rs:223-265 | Foreign code that writes through every pointer it was given, at any depth, changes the stores as the model of its edit says and, of the Rust values, only those lent in place. |
| SoftCalls.SoftCall | src/ops.rs:66-83 | A whole call: all arguments are lent, edited, synchronised without stopping at a failure, and the result is returned exactly if all was accepted and it decodes; every borrowed value ends as its edited carrier decodes, or else with the default it was moved out for, or else as it was. |
| SoftCalls.AbandonCall | src/sync.rs:250-256 | After a call whose stores are dropped every borrowed value is known: an argument that is itself lent in place holds its edit, a value that was moved out holds the default, and every other value, in-place values inside arrays and vectors included, is as it was. |
| StoreReuse.EncodeStore.Finish | src/sync.rs:133-141 | Finishing clears carrier, original and fields together, or changes nothing on an idle store. |
| StoreReuse.EncodeStore.Encode | src/sync.rs:122-131 | Reuse finishes the earlier carrier without writing it, then runs the builder on the original and the fields; a failing builder arms nothing but keeps its changes to both. |
| StoreReuse.EncodeStore.Sync | src/sync.rs:234-242 | The original is assigned exactly if the carrier decodes and the fields synchronise. |
| StoreReuse.EachLifeEndsOnce | src/sync.rs:626-770 | Over every sequence of encodings, edits and failing builders, ended by synchronising or dropping, each armed carrier is decoded exactly once, in order, with what it held at last; only the last is ever written, and only if it is synchronised and succeeds. |
| StoreReuse.Use | src/sync.rs:118-141 | Driving a store through such a sequence leaves in every place what the last builder that encoded it left there, or what it held before, unless the run ends by writing the value of its last carrier there. |
| StoreReuse.MovedOutUnlessWritten | src/mutable.rs:598-632 | If every builder leaves the same value in a place, as those do that move the value out and leave the default, the place holds that value after any run that encoded it, unless its carrier is the last, is synchronised and is accepted. |
| DecodeReuse.DecodeStore.Finish | src/sync.rs:197-209 | In whole-value order a failing field synchronisation leaves the source as it is; in the other order the source is written first and the fields are synchronised regardless. |
| DecodeReuse.DecodeStore.DecodeWithOrder | src/sync.rs:183-195 | Reuse commits the earlier value first; if that fails the builder never runs, and a failing builder arms nothing. |
| DecodeReuse.DecodeStore.DecodeWhole | src/sync.rs:146-164 | A null source is refused before an earlier value is committed; otherwise the value is retained for writing after its fields, which `DecodeReuse.WholeValuesWaitForFields` and `DecodeReuse.UseWhole` state without reference to the order. |
| DecodeReuse.RunIsStory | src/sync.rs:797-900 | Every sequence of decodes, edits and a final synchronisation or drop is the story of its loans: each is repaid before the next builder runs, and one that cannot be repaid costs the next decode its turn. |
| DecodeReuse.WrittenIffRepaid | src/sync.rs:197-209 | Over every sequence of decodes and edits, ended by synchronising or dropping, the writes to foreign memory are, in order, exactly those of the finished loans: in whole-value order the loans that are repaid, in the other order the loans whose value converts, even if their fields fail afterwards. |
| DecodeReuse.BuildersWait | src/sync.rs:183-195 | Over every such sequence a builder runs only on a store that is idle (fresh, after a builder that failed, after a refusal, or after a value that was written and whose fields synchronised), never over an armed value, and a decode is refused before its builder only after a finish that failed. |
| DecodeReuse.FreshIdleIffEventsSay | src/sync.rs:183-209 | After any sequence of calls on a fresh store the store is unarmed exactly if the events so far end in one of those ways. |
| DecodeReuse.Use | src/sync.rs:143-209 | Driving a store through any sequence of both kinds of decode, edits and a final synchronisation or drop leaves in every target the last carrier that the run writes to it, or what it held before. |
| DecodeReuse.WholeValuesWaitForFields | src/sync.rs:154-164 | Over every sequence of whole-value decodes and edits, ended by synchronising or dropping, every write to a source directly follows a synchronisation of its fields that succeeded. |
| DecodeReuse.UseWhole | src/sync.rs:146-209 | After any such sequence a source whose fields failed to synchronise holds what it held, a value whose fields synchronised is written as the encoding of its last edit when the next value is decoded or the store is synchronised, and a failure costs the next decode its turn. |
| DecodeReuse.DestinationsGoFirst | src/sync.rs:206-208 | Over every sequence of decodes that retain destinations to be written first, of edits and a final synchronisation or drop, every write is followed directly by the synchronisation of the fields it may have written into. |
| DecodedVectors.CloneIsSame | src/decoded.rs:1745 | A clone is the same value at every depth, capacities aside, and no vector inside it has spare capacity; `DecodedVectors.SameWithoutSpare` adds that there is only one such value. |
| DecodedVectors.BuildDecodes | src/decoded.rs:1727-1747 | A mutable borrow of foreign memory of any type is granted exactly if it decodes (null, a length above capacity and invalid elements are refused), and Rust code then sees the decoded value, capacities aside. |
| DecodedVectors.SyncMerges | src/decoded.rs:1748-1757 | After any edit, for every type, success is exactly that every vector nested in vectors kept its length and capacity, and then foreign memory decodes to the edited value; in general it decodes, capacities aside and exactly for vectors of plain elements, to the merge of the edit, in which a vector whose length or capacity changed stays as it was. |
| DecodedVectors.EditedVector | src/decoded.rs:1715-1761 | For vectors of any element type synchronisation succeeds exactly if every length and capacity was kept, and then foreign memory decodes to the edited vector; if the outer length or capacity changed it decodes to the same value as before, capacities aside and exactly for vectors of plain elements. |
| DecodedVectors.UneditedSyncsIffTight | src/decoded.rs:1739-1757 | A vector of any element type that nobody edited synchronises exactly if no vector nested inside it has spare capacity, because elements are cloned and clones have none; either way foreign memory decodes to the same value as before, capacities aside and exactly for vectors of plain elements. |
| DecodedVectors.SpareCapacityInsideFails | src/decoded.rs:1739-1757 | A concrete untouched vector of vectors for which synchronisation fails. |
| VectorStores.DecodeVector | src/decoded.rs:1727-1747 | The builder loop with its early exit produces a store over the foreign elements exactly if the vector decodes, and the store then holds the decoded value, capacities aside. |
| VectorStores.SyncStore | src/decoded.rs:1748-1757 | The write-back loop through element pointers followed by the synchronisation of all element stores leaves in foreign memory what the specification says. |
| VectorStores.Borrow | src/decoded.rs:1715-1761 | A complete borrow, edit and synchronisation of foreign vectors in place leaves the merged value, capacities aside, reports success exactly if every length and capacity was kept, and then leaves exactly the edited value. |
| CfgAttr.SplitCommas | derive/src/cfg_attr.rs:182-192 | The splitting loop yields the parts between top-level commas. |
| CfgAttr.SplitJoins | derive/src/cfg_attr.rs:182-192 | Joining the parts with commas gives back the tokens, and no part contains a top-level comma. |
| CfgAttr.PartsOfList | derive/src/cfg_attr.rs:143-154 | An argument list of any number of non-empty parts, with or without a trailing comma, has exactly these parts. |
| CfgAttr.ListOfParts | derive/src/cfg_attr.rs:143-154 | Every argument list that is not empty is the list of its parts, with or without a trailing comma. |
| CfgAttr.CfgAttrForm | derive/src/cfg_attr.rs:145-170 | `cfg_attr(p, a, b, ..)` with any number of attributes is well formed exactly if each of them is, and stands for all of them in order if `p` holds and for nothing otherwise. |
| CfgAttr.MeaningsInOrder | derive/src/cfg_attr.rs:156-160 | Several attributes leave their tokens one after the other, and all of them must keep the invocation. |
| CfgAttr.WellFormedForms | derive/src/cfg_attr.rs:116-154 | A well-formed conditional attribute has exactly one group in parentheses, and that of a `cfg_attr` is a list of a non-empty predicate and at least one non-empty attribute. |
| CfgAttr.LeadingForms | derive/src/cfg_attr.rs:24-38 | Each leading inner attribute is replaced by what it means; from the first tokens that begin none everything is kept as it is. |
| CfgAttr.MergeHolds | derive/src/cfg_attr.rs:70-82 | Merging the gates of two variants is satisfied by an assignment exactly if both are; a contradiction is reported only if no assignment satisfies both. |
| CfgAttr.AppendVariants | derive/src/cfg_attr.rs:64-94 | The nested loops yield the product of both lists without contradictory pairs and without repeated predicates. |
| CfgAttr.SelectedProduct | derive/src/cfg_attr.rs:64-94 | Under every assignment the selected variants of the product are the pairs of the selected variants of both sides, in order. |
| CfgAttr.ExpandAttribute | derive/src/cfg_attr.rs:108-170 | Expansion of one attribute with its error cases, recursively for the payloads of `cfg_attr`. |
| CfgAttr.ExpandedMeans | derive/src/cfg_attr.rs:108-170 | Under every assignment exactly one variant of an attribute is selected and it is what the nested attribute means; expansion fails exactly on malformed attributes. |
| CfgAttr.Expand | derive/src/cfg_attr.rs:24-38 | The outer loop over leading inner attributes; everything after them is appended to every variant. |
| CfgAttr.ExpandMeansEvaluate | derive/src/cfg_attr.rs:24-38 | For every assignment of the opaque predicates exactly one returned variant has all its gates satisfied, and its tokens and activity are those of direct evaluation. |
| CfgAttr.EmitMacroInvocations | derive/src/cfg_attr.rs:40-62 | One invocation per active variant, gated by its branches. |
| CfgAttr.CompilesAtMostOne | derive/src/cfg_attr.rs:40-62 | At most one emitted invocation is compiled, and one is exactly if every `cfg` that evaluation reaches holds. |
| CfgAttr.ReexpansionIsIdentity | derive/src/cfg_attr.rs:98-122 | Expanding the tokens of any variant again yields that variant alone, without gates. |
| CfgAttr.SingleIffSettled | derive/src/lib.rs:494-497 | Expansion yields one variant exactly if no leading attribute is conditional, so recursive invocation stops after one step. |
| CfgAttr.GatesAreDistinct | derive/src/cfg_attr.rs:64-94 | No returned variant has two gates with the same predicate. |
| DispatchGroups.Enumerator.Visit | derive/src/lib.rs:219-234 | The recursive enumeration calls back once per combination of the remaining groups on top of the stack it was given, and restores the stack. |
| DispatchGroups.ForEachCombination | derive/src/lib.rs:218-238 | All calls together are the combinations of all groups. |
| DispatchGroups.CombinationsArePicked | derive/src/lib.rs:218-238 | The n-th combination is the n-th choice of target numbers. |
| DispatchGroups.EnumerationIsProduct | derive/src/lib.rs:218-238 | The choices are exactly the elements of the Cartesian product, each once, in increasing lexicographic order; without groups there is one, the empty choice. |
| DispatchBindings.AssignmentsOfCombinations | derive/src/lib.rs:218-238 | The assignments of groups, defined as a product of sets, are what the enumerated combinations give to the parameters. |
| DispatchBindings.CombinedIsCross | derive/src/lib.rs:240-244 | Combining groups over different parameters combines each assignment of one with each of the other. |
| DispatchBindings.CollectParts | derive/src/lib.rs:375-396 | Collecting the targets of a group by static part yields one entry per distinct static part with its dynamic parts in order. |
| DispatchBindings.PartsMerge | derive/src/lib.rs:375-396 | The entries of one group together assign exactly what the group assigns. |
| DispatchBindings.SplitStatic | derive/src/lib.rs:321-414 | The loops over groups, targets and bindings return the specified static and dynamic pairs. |
| DispatchBindings.StaticBindingsPreserveProduct | derive/src/lib.rs:321-414 | Merging the static and the dynamic side of every returned pair, and taking all pairs together, gives exactly the original assignments. |
| DispatchBindings.StaticSidesAreSingleAndDistinct | derive/src/lib.rs:398-412 | Every static side has exactly one combination and no two returned static sides coincide. |
| DispatchBindings.StaticParamsAre | derive/src/lib.rs:326-341 | Exactly the requested names of const parameters and of type parameters that are not erased are bound statically. |
| DispatchBindings.StaticBindingsAreSorted | derive/src/lib.rs:240-244 | Both sides of every returned pair list their groups in the order of their parameter lists, compared name by name; `DispatchBindings.TextLessIs` says how names compare. |
| DispatchBindings.DynamicsInOrder | derive/src/lib.rs:375-396 | The dynamic parts that go with a static part are those of exactly the targets that have it, in their order. |
| DispatchBindings.LastGroupVariesFastest | derive/src/lib.rs:398-412 | The pairs are in order: with one more group, each pair is followed through all parts of that group before the next one. |
| DispatchMultiplicity.DynamicsKeepMultiplicity | derive/src/lib.rs:321-414 | The pairs that are returned yield every assignment exactly as often as the combinations of the original groups do once the groups without dynamic parameters have lost their repeated targets. |
| DispatchMultiplicity.EntriesOfPairs | derive/src/lib.rs:375-412 | Every returned pair holds one static part of each group: that part is the only target of the group's static entry, and the group's dynamic entry holds exactly the dynamic parts of the targets with that static part, in order and with their repetitions. |
| DispatchClosure.MentionsIs | derive/src/utils.rs:96-109 | An argument mentions a parameter exactly if somewhere in it, at any depth, there is a path that is not global and begins with the parameter. |
| DispatchClosure.UsesIs | derive/src/lib.rs:255-275 | A parameter is used exactly if it begins such a path in an argument that some target binds to a selected parameter. |
| DispatchClosure.NeededIsLeast | derive/src/lib.rs:251-281 | The parameters that all closed sets containing the root share are themselves closed: a least set exists. |
| DispatchClosure.Closure | derive/src/lib.rs:251-281 | The fixpoint loop terminates with the least set that contains the root and every parameter mentioned by an argument bound to a member. |
| DispatchClosure.BindingsFor | derive/src/lib.rs:246-319 | The returned groups are the original ones projected onto that least set and repeat no target; they assign exactly the restrictions of the original assignments if and only if every group that is dropped has targets or some group that is kept has none. |
| DispatchClosure.ProjectionRestricts | derive/src/lib.rs:283-318 | For every set of kept parameters the projected groups repeat no target, and they assign exactly the restrictions of the original assignments if and only if every dropped group has targets or some kept group has none. |
| DispatchClosure.DroppingAnEmptyGroup | derive/src/lib.rs:283-318 | Concrete groups without any combination whose projection has one, because the group without targets is dropped. |
| Packing.SelfIdentIs | derive/src/lib.rs:1145-1159 | An impl belongs to a name exactly if its self type is that unqualified path of one segment, or a trait object whose only bound is that plain trait of one segment. |
| Packing.SelectsIs | derive/src/lib.rs:946-985 | A drop impl selects exactly if its self type is one of its own type parameters that some group dispatches, and then exactly the names that targets of the first such group have, as unqualified paths of one segment, at the position of that parameter. |
| Packing.PackTypeSelfImpls | derive/src/lib.rs:1139-1201 | The loop over declarations moves each impl to the first declared type with its name. |
| Packing.PackedSelfConserves | derive/src/lib.rs:1139-1201 | If nothing is packed yet, every impl occurs afterwards as often as before. |
| Packing.SelfImplsInOrder | derive/src/lib.rs:1139-1201 | The first type of each name takes exactly the impls that belong to the name, in the order of their declarations. |
| Packing.PackTypeDropImpls | derive/src/lib.rs:1003-1115 | Packing succeeds exactly if every declared type has at most one explicit drop and impl that selects it, counted together; no drop is ever reported as unknown. |
| Packing.PackedDropsConserves | derive/src/lib.rs:1003-1115 | On success every impl occurs afterwards as often as before: kept, as self impl or as drop. |
| Packing.PackItems | derive/src/lib.rs:651-653 | Both packings together succeed exactly if, for every declared type, the drops in the declarations as written plus the selecting impls that move into the type exceed the moving impls that select it by at most one; if no selecting impl moves, exactly if every declared type has at most one drop. The result is the second packing of the first, and conserves every impl. |
| Packing.EveryImplIsPlaced | derive/src/lib.rs:1003-1201 | After both packings everything packed into a type names that type, its drop is a drop impl, its self impls are not, and no impl that names a declared type is left outside. |
| Packing.FrameIsKept | derive/src/lib.rs:1003-1201 | Packing and defaulting leave the types and all declarations that are not impls where they are, in number, name and order. |
| Packing.DropsAfterSelf | derive/src/lib.rs:946-977 | In terms of the input, the drops of a type are the drop impls with its name and the selecting impls that were not packed as self impls themselves. |
| Packing.DropsOfInput | derive/src/lib.rs:946-977 | The drops of every declared type after packing self impls are those in the declarations, plus the selecting impls that move into the type, minus the moving impls that select it. |
| Packing.PackingJudgesInput | derive/src/lib.rs:1003-1115 | If no selecting impl moves, packing accepts exactly the declarations in which every declared type has at most one drop. |
| Packing.AcceptsTwoDrops | derive/src/lib.rs:1139-1201 | Concrete declarations with two drops for one type that packing accepts, because the impl that selects it moves into another type. |
| Packing.SynthesizeDefaultDropImpls | derive/src/lib.rs:735-759 | A type gets the default drop exactly if it has none, is not selected and has no generics but lifetimes. |
| Packing.DefaultsExactly | derive/src/lib.rs:735-759 | Defaulting changes exactly the types without drop that no impl selects and that have no generics but lifetimes, and only adds the default drop; that is a drop impl of the type it is given to (`Packing.DefaultDropIs`). |
| Packing.ExactlyOneDrop | derive/src/lib.rs:735-759 | After packing and defaulting every declared type without non-lifetime generics has exactly one drop, its own or one impl that selects it. |
| Lifetimes.StaticLifetimeNormalizer.Visit | derive/src/dispatch.rs:789-822 | The visitor rewrites a type in place as specified and leaves its stack of bound names as it found it. |
| Lifetimes.BoundNamesAre | derive/src/dispatch.rs:773-788 | A binder list binds exactly the names of all its lifetime parameters. |
| Lifetimes.FreeLifetimesBecomeStatic | derive/src/dispatch.rs:767-822 | Under any nesting and shadowing a lifetime keeps its name exactly if a binder around it binds that name; otherwise it becomes `'static`. |
| Lifetimes.NothingElseChanges | derive/src/dispatch.rs:789-822 | Apart from lifetime names the type stays the same. |
| Lifetimes.NormalisedTwice | derive/src/dispatch.rs:767-822 | Normalising is idempotent. |
| Lifetimes.SubstitutesIffBoundsClosed | derive/src/dispatch.rs:789-791 | Because binder lists are not visited, the result is the full scoped substitution exactly if no binder list mentions a free lifetime other than `'static`. |
| Lifetimes.BinderListsKeepFreeLifetimes | derive/src/dispatch.rs:789-791 | A concrete type whose binder list keeps a free lifetime. |

## Left out

- Packing.PackTypeDropImpls: states whether packing succeeds, but not which of its complaints it reports, nor in which order.
- Memory layout beyond the order of scalar words: alignment, padding, pointer provenance and calling conventions. Signed integers and floats behave like the unsigned words of their size.
- Trait resolution: which conversion a type gets is a function of its descriptor. A native result whose sides have different sizes and no usable niche has no implementation in the program; the model treats it as tagged.
- References, boxes, strings, slices by value, wide pointers, cells and `ManuallyDrop`: their carriers delegate to the modelled ones.
- Exact capacities chosen by the allocator: a vector asked for n elements gets capacity n, and clones get their length.
- DecodedVectors.SyncMerges: states memory only up to capacities for vectors inside tuples, arrays, options or results, because the program decodes those through references and clones them, which drops their spare capacity.
- The stores of options and results are the store of the side they hold.
- Builders that leave element stores of an earlier use behind in a wide store; whole calls always start from fresh stores, and reuse is covered for single-value stores.
- Mutable references to references and the slice-tailed `RefMutDstEncodeStore`, which repeats the protocol of the sized store.
- `RefMutSliceDecodeStore`, which sets its source before decoding.
- SoftCalls.SoftCall: models the mutable arguments of a call only; arguments passed by value have empty stores, whose synchronisation always succeeds.
- Panics, except a builder that unwinds out of `encode`.
- Token printing: two token trees count as the same predicate exactly if they are equal, and targets are grouped by equality instead of by their printed form, so the order of the groups of `static_bindings` is that of first appearance.
- DispatchBindings.StaticBindingsPreserveProduct: states the union of the assignments, not how often each occurs, because purely static groups merge repeated targets; how often is stated by DispatchMultiplicity.DynamicsKeepMultiplicity.
- Spans, symbol names, signature lowering, validation of declarations and `ErasedParamReplacer`.
- Naming of unnamed lifetimes (`EntryLifetimeNamer`).

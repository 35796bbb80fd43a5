# wf core in Dafny

This project models three small pieces of `wf`, a Go binding for the Windows
Filtering Platform (WFP), and proves properties of them:

* **The bump-allocation arena** (`malloc.go`), in `arena.dfy`. The binding
  builds its API structures in unmanaged memory. The arena hands out
  8-byte-aligned regions from 4096-byte slabs taken from the process heap
  with `LocalAlloc`. `Dispose` frees every slab at once.
  * `Arena.Arena` is a class with the source's three fields: `slabs`,
    `next` and `remaining`. It also has ghost fields recording every region
    handed out so far.
  * `Arena.LocalHeap` stands in for `LocalAlloc` and `LocalFree`. It is an
    oracle that returns any fresh, aligned base that does not overlap a live
    block.
  * `arena_scenarios.dfy` drives the arena the way its tests do. It also
    gives a pure account of the cursor (`Step`, `Replay`) and proves that the
    class follows it.
* **The rule enumerator** (`enum.go`), in `enum.dfy`.
  * `Session.EnumerateRules` and the `With*` methods form a value-copy
    builder over a filter-enumeration template.
  * `Execute` opens an enumeration handle and fetches pages until one is
    empty. It returns the rules gathered, or the first error, and destroys
    the handle.
  * The engine behind the handle calls is the oracle class `Enum.Engine`.
    It plays back a finite script of page results and logs every request
    made of it, with its arguments.
* **The bit-flag renderers** (`zfilterenumflags_strings.go`,
  `zfilterenumtype_strings.go`), in `filterenumflags_strings.dfy` and
  `filterenumtype_strings.dfy`. Their shared theory is in `bitnames.dfy`.
  * Each `String` method scans bits 0 to 5 and collects the names of the set
    bits. It joins them with `|` and wraps them in `FilterEnumFlags(` … `)`.
  * The type renderer is a copy of the flags renderer, including the
    `FilterEnumFlags(` prefix, and the model keeps that.
  * The loops are proved equal to a recursive specification (`Collect`).
    `Collect` in turn is characterised by the list of set-bit indices
    (`SetBits`) and by an inverse parser (`Parse`).

`types.dfy` declares the shared scalar types. `wrappers.dfy` declares
`Option` and `Result`.

## Model

| member | source | states |
|---|---|---|
| Arena.Pad | malloc.go:52-60 | The bytes `align` skips are fewer than 8. They bring the cursor onto an 8-byte boundary. They are zero exactly when the cursor is already aligned. |
| Arena.PadFits | malloc.go:52-60 | When the end of the current slab is aligned, the padding never exceeds `remaining`. So the subtraction in `align` cannot underflow, and what is left stays a multiple of 8. |
| Arena.SeparateSlabs | malloc.go:43-49 | Regions inside two different live slabs never overlap. |
| Arena.LocalHeap.constructor | malloc.go:43 | The process heap starts with no live blocks and nothing freed. |
| Arena.LocalHeap.LocalAlloc | malloc.go:32-46 | Oracle for `LocalAlloc`. It returns a non-NULL, 8-aligned base that is not a live block and whose block overlaps no live block, and it records the block as live. A failed `LocalAlloc` panics in `grow`, so no returned base is 0. |
| Arena.LocalHeap.LocalFree | malloc.go:89-93 | Oracle for `LocalFree`. It may only free a live block (so no double free), removes exactly that block and logs it. |
| Arena.Arena.constructor | malloc.go:20-24 | The zero arena has no slabs, and its cursor and remaining count are 0. |
| Arena.Arena.Grow | malloc.go:31-50 | `grow` keeps the arena invariant. It appends exactly one slab and leaves the old ones unchanged. The cursor moves to the new slab's aligned base, with `remaining == slabSize`. The new slab is a fresh heap block overlapping no live block. |
| Arena.Arena.Align | malloc.go:52-60 | `align` leaves `next` aligned, advanced by exactly `Pad(next)`. It preserves `next + remaining`, so `remaining` does not underflow, and it keeps every earlier region valid. |
| Arena.Arena.Alloc | malloc.go:63-84 | The address is non-zero and a multiple of 8. The region `[ret, ret+length)` lies inside the last slab and overlaps no earlier region. `next` ends at `ret + length`. A slab is appended exactly when the space left after alignment is smaller than `length`; then `ret` is the new base and `remaining == slabSize - length`. Otherwise slabs and heap are unchanged, `ret` is the aligned cursor, and `remaining` drops by padding plus `length`. |
| Arena.Arena.Reserve | malloc.go:71-75 | After `align` and the conditional `grow`, the cursor is aligned with at least `length` bytes left in the current slab. It grows exactly when the aligned remainder is short. |
| Arena.Arena.Carve | malloc.go:80-83 | Returns the cursor, moves it by `length` and takes `length` off `remaining`. The region lies in the last slab and overlaps no earlier region. |
| Arena.Arena.CarveDisjoint | malloc.go:73-83 | A region carved at or after the cursor of the current slab overlaps no region returned before, including those in earlier slabs. |
| Arena.Arena.Dispose | malloc.go:86-97 | Frees every slab exactly once, in order, and removes exactly the slabs from the live blocks. The arena is left in the zero state, which satisfies the invariant, so `Alloc` works again. |
| ArenaScenarios.Step | malloc.go:71-75 | One request opens at most one slab, and it opens one exactly when the rest of the current slab after padding is shorter than the request. |
| ArenaScenarios.ReplayBounds | malloc.go:73-75 | A sequence of requests never gives slabs back and adds at most one slab per request. |
| ArenaScenarios.WholeSlabRequests | malloc.go:64-75 | Requests of a whole slab each take a slab of their own. |
| ArenaScenarios.Request | malloc.go:63-84 | One `Alloc` on a heap that other users may share moves the cursor as `Step` says. When it grows, it appends one fresh slab and adds exactly that block to the heap; otherwise slabs and heap are unchanged. Nothing is freed, and the region returned is non-zero, aligned and disjoint from the earlier ones. |
| ArenaScenarios.SoleTenantRequest | malloc.go:63-84 | When the arena is the heap's only user, one `Alloc` keeps the live heap blocks exactly the arena's slabs, besides everything `Request` states. |
| ArenaScenarios.RunRequests | malloc_test.go:21-33 | Successive `Alloc`s on an empty arena take exactly as many slabs as `Replay` predicts. Every address is non-zero and aligned, the slabs stay exactly the live heap blocks, and the regions are recorded in order. |
| ArenaScenarios.AllocSequence | malloc_test.go:13-34 | Allocating on a fresh arena and then disposing it, as the tests do: every address is non-zero and aligned, and no two regions overlap. The slab count is the one `Replay` gives. Dispose frees that many blocks and leaves no live block. |
| ArenaScenarios.EightToFifteenOneSlab | malloc_test.go:13-34 | Eight requests of 8 to 15 bytes all fit in one slab. |
| ArenaScenarios.SpanWithRounding | malloc_test.go:36-51 | 4092 bytes and then 8 bytes need two slabs, because of the padding. |
| ArenaScenarios.SpanWithSmallerRequests | malloc_test.go:53-108 | After 4092 bytes, one byte opens the second slab and 8 more fit beside it. A full slab and then one byte take a third and a fourth slab. |
| ArenaScenarios.SpanWithoutRounding | malloc_test.go:110-127 | 4080 bytes and then 24 bytes need two slabs, without any padding. |
| Enum.Engine.constructor | enum.go:54-62 | An engine whose next handle creation has the given outcome and whose pages are the given script, with nothing opened, created, fetched or destroyed. |
| Enum.Engine.CreateEnumHandle | enum.go:54-56 | Oracle for handle creation. It logs the session handle and template it is given, then fails with the scripted error or opens a fresh handle. |
| Enum.Engine.GetRulePage | enum.go:62 | Oracle for a page fetch on an open handle. It returns the next scripted page or error, or an empty page once the script is exhausted, and logs the session and enumeration handles it was given. |
| Enum.Engine.DestroyEnumHandle | enum.go:57 | Oracle for handle destruction. It closes an open handle and logs the session and enumeration handles. |
| Enum.Session.EnumerateRules | enum.go:75-83 | The builder is bound to this session. Its template has the given type and layer, and every other field at the zero value. |
| Enum.RuleEnumerator.WithProvider | enum.go:12-15 | Sets the provider key and no other template field, and keeps the session. |
| Enum.RuleEnumerator.WithLayer | enum.go:17-20 | Sets the layer key and no other field, and keeps the session. |
| Enum.RuleEnumerator.WithType | enum.go:22-25 | Sets the enumeration type and no other field, and keeps the session. |
| Enum.RuleEnumerator.WithFlags | enum.go:27-30 | Sets the flags and no other field, and keeps the session. |
| Enum.RuleEnumerator.WithProviderContext | enum.go:32-40 | Installs a new provider-context template with the given provider key and context type. It changes no other field and keeps the session. |
| Enum.RuleEnumerator.WithActionMask | enum.go:42-45 | Sets the action mask and no other field, and keeps the session. |
| Enum.RuleEnumerator.WithCalloutKey | enum.go:47-50 | Sets the callout key and no other field, and keeps the session. |
| Enum.Apply | enum.go:12-50 | Any one of the seven `With*` calls keeps the session and changes no template field but its own. |
| Enum.LastCallWins | enum.go:12-50 | For every one of the seven setters and any two arguments, setting the same field twice gives the same builder as the last call alone. |
| Enum.DistinctFieldsCommute | enum.go:12-50 | For every pair of setters of different fields and any arguments, the two calls give the same builder in either order. |
| Enum.RuleEnumerator.Execute | enum.go:52-73 | It asks the engine once for a handle, with this builder's session handle and template. If that fails, it returns the error, fetches nothing and destroys nothing. Otherwise the result is `Outcome` of the scripted pages, after exactly `Fetches` page requests. Every one of those requests and the single destroy use the session handle and the handle just opened, which was not open before. The set of open handles is as before. |
| Enum.Outcome | enum.go:59-72 | A failed paging returns an error that one of the pages carried. |
| Enum.Fetches | enum.go:59-72 | Paging makes at least one request and at most one more than there are scripted pages. |
| Enum.OutcomeAtEmptyPage | enum.go:59-72 | When every page before the first empty one (or before the end of the cursor) holds rules, the result is their concatenation in page order, after that many fetches plus one. |
| Enum.OutcomeAtError | enum.go:61-65 | A page error before the first empty page discards the rules gathered so far and is returned alone. |
| Enum.EmptyFirstPage | enum.go:67-69 | An empty first page yields no rules and no error, after one fetch. |
| Enum.FilterByProvider | firewall_test.go:361-372 | The test's chain of `EnumerateRules`, `WithProvider`, `WithActionMask` and `WithFlags` builds a template with exactly those four settings, and the engine is asked for a handle with exactly that template. Against one page holding one rule, `Execute` returns that rule alone. Both fetches use the handle that is then destroyed, and no handle is left open. |
| BitNames.Collect | zfilterenumflags_strings.go:22-26 | The scan over the first n bits collects at most n names, each one an entry of the first n in the table. |
| BitNames.Join | zfilterenumflags_strings.go:27 | `strings.Join`: no parts give the empty string; otherwise the result starts with the first part, and its length is the parts' total length plus one separator per gap. |
| BitNames.Render | zfilterenumflags_strings.go:27 | The output is the prefix, then the joined names, then a closing `)`: it starts with the prefix, ends with `)`, and is one longer than the prefix and the joined names together. |
| BitNames.SetBitsSpec | zfilterenumflags_strings.go:22-26 | The set-bit index list holds exactly the set bits of its range, strictly ascending. |
| BitNames.CollectIsSetBits | zfilterenumflags_strings.go:22-26 | The collected names are the table entries at the set-bit indices, in ascending bit order. |
| BitNames.CollectMember | zfilterenumflags_strings.go:22-25 | For a table of distinct names, name k is collected exactly when bit k is set. |
| BitNames.CollectAvoids | zfilterenumflags_strings.go:22-25 | Names at or above index n are never collected from the first n bits. |
| BitNames.SetBitsCount | zfilterenumflags_strings.go:22-26 | The number of set-bit indices equals the popcount of the low bits. |
| BitNames.CollectCount | zfilterenumflags_strings.go:22-26 | The number of collected names equals the popcount of the low bits. |
| BitNames.CollectLowBits | zfilterenumflags_strings.go:22 | Bits 6 and up are never looked at. |
| BitNames.CollectSameBits | zfilterenumflags_strings.go:22-26 | Values that agree on the scanned bits collect the same names. |
| BitNames.PiecesJoin | zfilterenumflags_strings.go:27 | Splitting at the separator undoes the join of separator-free parts. |
| BitNames.FieldsJoin | zfilterenumflags_strings.go:27 | Splitting undoes the join of non-empty, separator-free parts, including the empty list. |
| BitNames.DecodeAppend | zfilterenumflags_strings.go:24 | Appending the name of table entry k adds exactly bit k to what the names decode to. |
| BitNames.DecodeCollect | zfilterenumflags_strings.go:22-26 | Decoding the collected names gives back exactly the set bits. |
| BitNames.ParseFrame | zfilterenumflags_strings.go:27 | Reading back strips exactly the prefix and the closing `)` that the rendering adds. |
| BitNames.ParseRender | zfilterenumflags_strings.go:20-28 | Parsing a rendered string gives back exactly which of the six bits are set. |
| FilterEnumFlagsStrings.NamesWellFormed | zfilterenumflags_strings.go:7-14 | The flag table has six non-empty, distinct names, none containing `|`. |
| FilterEnumFlagsStrings.Render | zfilterenumflags_strings.go:27 | The output starts with `FilterEnumFlags(` and ends with `)`. |
| FilterEnumFlagsStrings.String | zfilterenumflags_strings.go:20-28 | The loop collects exactly the names `Collect` specifies, and the result is `FilterEnumFlags(`, those names joined by `|`, then `)`. |
| FilterEnumFlagsStrings.NameIffBit | zfilterenumflags_strings.go:22-25 | Name i appears among the output's names exactly when bit i is set. |
| FilterEnumFlagsStrings.NamesAscending | zfilterenumflags_strings.go:22-27 | The output's names are the entries of the set bits, in strictly ascending bit order. |
| FilterEnumFlagsStrings.HighBitsIgnored | zfilterenumflags_strings.go:22 | Bits 6 and up do not affect the output. |
| FilterEnumFlagsStrings.NoFlags | zfilterenumflags_strings.go:21-27 | A value with none of the six low bits set renders as `FilterEnumFlags()`. |
| FilterEnumFlagsStrings.NameCount | zfilterenumflags_strings.go:22-26 | The output names as many flags as the low six bits have set. |
| FilterEnumFlagsStrings.ParseString | zfilterenumflags_strings.go:20-28 | The output can be read back, and tells exactly which of bits 0 to 5 are set. |
| FilterEnumFlagsStrings.RenderInjective | zfilterenumflags_strings.go:20-28 | Two values render alike exactly when they agree on bits 0 to 5. |
| FilterEnumTypeStrings.TypeNamesWellFormed | zfilterenumtype_strings.go:7-14 | The type table has six non-empty, distinct names free of the separator, entry for entry the flags table. |
| FilterEnumTypeStrings.Render | zfilterenumtype_strings.go:27 | The output starts with the literal `FilterEnumFlags(`, not `FilterEnumType(`, and ends with `)`. |
| FilterEnumTypeStrings.String | zfilterenumtype_strings.go:20-28 | The loop over the type's own table collects what `Collect` specifies, and wraps it in the `FilterEnumFlags(` prefix. |
| FilterEnumTypeStrings.SameAsFlags | zfilterenumtype_strings.go:7-27 | For equal numbers the type renders exactly as the flags value, with the same names. |
| FilterEnumTypeStrings.NameIffBit | zfilterenumtype_strings.go:22-25 | Entry i of the type table appears exactly when bit i is set. |
| FilterEnumTypeStrings.NamesAscending | zfilterenumtype_strings.go:22-27 | The names are the entries of the set bits, in strictly ascending bit order. |
| FilterEnumTypeStrings.HighBitsIgnored | zfilterenumtype_strings.go:22 | Bits 6 and up do not affect the output. |
| FilterEnumTypeStrings.Zero | zfilterenumtype_strings.go:21-27 | The value 0 renders as `FilterEnumFlags()`. |

## Left out

- Addresses are unbounded naturals. The wrap-around of `uintptr` arithmetic is not modelled; the heap oracle never hands out a block near the top of the address space.
- `Arena.Arena.Alloc`: the fatal errors for a zero length or one above 4096 bytes (malloc.go:64-69) are preconditions, so the model covers only calls that do not panic. The slab size is fixed: the code has no path for an oversized slab, and the model has none either.
- The heap functions `LocalAlloc` and `LocalFree` are the oracle `Arena.LocalHeap`. Their failure panics (malloc.go:44-46, 90-92) are not modelled, and neither are memory contents: the zero fill requested by `LPTR`, and the pointer casts of malloc.go:77-80.
- `Arena.LocalHeap.LocalAlloc` does not model the 16-byte alignment the heap gives on 64-bit Windows. It promises only the 8 bytes the arena relies on.
- The WFP calls behind `Execute` (creating and destroying the enumeration handle, and `getRulePage`) are the oracle `Enum.Engine`. The engine's page script is finite, and an exhausted script returns empty pages. An engine that returns non-empty pages forever, on which the Go loop would not end, is not modelled.
- The error from destroying the enumeration handle is ignored by the deferred call and is not modelled.
- Rule descriptors are reduced to their identifier. Their conversion and ordering happen in `getRulePage` and the engine, and session.go is not part of this model.
- The session (`New`, `Close`), transactions, and the provider, sublayer and rule management calls are not part of this model. `Enum.Session` carries only its handle and engine.
- `fwpmFilterEnumTemplate0` carries only the fields the builder sets. Its declaration (types.go and the generated WFP structs) is not part of this model; GUIDs are 128-bit values and pointers are `Option`s.
- The error constants of errors.go are not used; engine errors are 32-bit codes.
- The unused generated constants `_FilterEnumFlags_name`, `_FilterEnumFlags_index`, `_FilterEnumType_name` and `_FilterEnumType_index` are never read by the code and are not modelled.

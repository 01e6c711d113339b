# A verified model of the Metal backend's core rewrites

This Dafny project models the target-independent core of the Metal Shading
Language backend of SPIRV-Cross (`spirv_msl.cpp`). It states and proves the
properties that backend relies on. The IR is an arena of records keyed by
numeric ID (`Ir.Arena`): types, variables, functions, basic blocks and
decoration metadata, with `bound` as the next free ID. Each pass of the
backend is a pure function from arena to arena, or a method when it loops.

The modules follow the structure of the source:

- `MemberSort`: `MemberSorter`. A strict weak order puts builtins last, then
  orders by a sorting aspect. The sort applies one rearrangement to a struct's
  member types and its member decorations. Because `std::sort` is not stable,
  only "sorted, and a rearrangement of the input pairs" is claimed.
- `ResourceIndex`: `get_metal_resource_index`. A caller binding for
  (stage, set, binding) wins and is flagged as used. Otherwise a per-kind
  counter hands out the next buffer, texture or sampler slot. In a vertex
  shader the buffer counter skips slot 0.
- `Driver`: the pass loop of `compile`. It runs at most three passes and
  resets the slot counters at the start of each one.
- `GlobalVars`: `localize_global_variables`, and
  `extract_global_variables_from_function(s)` as a memoised walk of the call
  graph. Every non-entry function then gains one parameter per global it
  needs, with fresh consecutive IDs.
- `InterfaceBlock`: `add_interface_block`. The qualifying stage variables are
  flattened into a fresh struct and its block variable. Their qualified names
  are rewritten through the block reference. The members are sorted, and the
  output block is wired into the entry function's returns.
- `Naming`: `ensure_valid_name`, `clean_func_name`,
  `set_entry_point_name`, the `m` prefix of `emit_function_declarations`,
  `to_name`, `builtin_to_glsl` and `to_qualified_member_name`.
- `Render`: `type_to_glsl`, `image_type_glsl`, `builtin_qualifier`,
  `builtin_type_decl`, `member_attribute_qualifier`,
  `get_ordered_member_location` and `to_component_argument`.
- `TypeSize`: `get_declared_type_size` and
  `get_declared_struct_member_size`. The 32-bit product of the array stride
  and the 64-bit `size_t` arithmetic wrap explicitly.
- `Text`, `Wrappers` and `Ir` are support: decimal rendering and parsing,
  string order, `Option`/`Result`, and the arena.

An IR type record carries `self`, the ID it was declared as. A pointer type
copies its pointee's record, `self` included. When a struct variable is
flattened, its members' names and builtin flags are read through the declared
struct's ID, while their locations and written-back qualified names go through
the variable's own type ID, as the source does.

Two choices about the source's loops:

- The source iterates `std::unordered_set`s of IDs. The model iterates them
  in ascending ID order, and no property depends on that order.
- Interface-block synthesis and global extraction run once, before the pass
  loop (`spirv_msl.cpp:62-74`); only the slot assignment is repeated per
  pass.

## Model

| member | source | states |
|---|---|---|
| MemberSort.LessIrreflexive | spirv_msl.cpp:1835-1859 | No member goes before itself under any aspect, builtins first by status. |
| MemberSort.LessTransitive | spirv_msl.cpp:1835-1859 | The member comparator is transitive, for every aspect. |
| MemberSort.LessNegativelyTransitive | spirv_msl.cpp:1835-1859 | "Not before" is transitive, so the comparator is the strict weak order that std::sort requires. |
| MemberSort.SortMembers | spirv_msl.cpp:1817-1820 | The sorted member list is a permutation (same multiset) of the input, and no member is placed after one the comparator puts after it. |
| MemberSort.Sort | spirv_msl.cpp:1813-1832 | One rearrangement is applied to both the member types and the first |member types| member decorations; type/decoration pairs are preserved as a multiset; decorations beyond the type count stay in place; the result is sorted. |
| MemberSort.BuiltinsLast | spirv_msl.cpp:1839-1840 | In a sorted member list every builtin comes after every non-builtin. |
| MemberSort.NotLessIsKeyOrdered | spirv_msl.cpp:1842-1857 | For members of equal builtin status, "not after" means ordered by the aspect's key (ascending or descending location, offset, offset then descending location, descending alias). |
| MemberSort.AspectOrder | spirv_msl.cpp:1842-1857 | A sorted list has every equal-status pair ordered by the aspect's key. |
| ResourceIndex.FirstMatch | spirv_msl.cpp:1370-1374 | Finds the first binding matching (stage, set, binding); none matches before it; None exactly when no binding matches. |
| ResourceIndex.LookupKey | spirv_msl.cpp:1366-1367 | Push-constant variables are looked up under the reserved push-constant set and binding, all others under their own decorations. |
| ResourceIndex.AutoAllocate | spirv_msl.cpp:1391-1405 | The kind's counter hands out its current value and advances past it; in a vertex shader a buffer counter at 0 hands out exactly slot 1 and moves to 2; kinds without a slot get 0 and change nothing; other kinds' counters are untouched. |
| ResourceIndex.GetMetalResourceIndex | spirv_msl.cpp:1362-1406 | A matching caller binding yields its slot for the kind, is flagged as used and leaves the counters; otherwise the binding list is unchanged and the kind's counter allocates, a vertex shader's buffer counter at 0 giving exactly slot 1; in all cases only used flags of bindings can change. |
| ResourceIndex.AssignAll | spirv_msl.cpp:1362-1406 | Serving a list of requests in order yields one slot per request and keeps the length of the binding list. |
| ResourceIndex.FirstMatchIgnoresUsedFlag | spirv_msl.cpp:1370-1376 | Setting used flags never changes which binding a key finds. |
| ResourceIndex.BoundLookupRepeatable | spirv_msl.cpp:1370-1388 | Asking again for a resource covered by a caller binding returns the same slot and leaves the state as it was. |
| ResourceIndex.AutoIndicesIncrease | spirv_msl.cpp:1391-1405 | Without caller bindings, the slots handed out for one kind lie between the counter's value before and after and strictly increase in request order: no two resources of a kind share a slot. |
| ResourceIndex.VertexBuffersSkipSlotZero | spirv_msl.cpp:1394-1396 | In a vertex shader no automatically numbered buffer gets slot 0. |
| ResourceIndex.FreshTexturesNumberedFromZero | spirv_msl.cpp:1398-1399 | From the pass-start counters, three unbound textures get slots 0, 1 and 2. |
| Driver.AssignAllIgnoresUsedFlags | spirv_msl.cpp:1370-1388 | Used flags left by an earlier pass change neither the slots nor the counters of a later pass. |
| Driver.AssignAllKeepsBindings | spirv_msl.cpp:1370-1388 | A pass changes nothing in the binding list but used flags. |
| Driver.Compile | spirv_msl.cpp:91-110 | Fails with the too-many-passes error exactly when passes 0, 1 and 2 all request a recompile; otherwise runs 1 to 3 passes, stopping at the first without a request; thanks to the counter reset the final slots equal those of a single pass over the caller's bindings. |
| GlobalVars.LocalizeGlobalVariables | spirv_msl.cpp:129-146 | The entry function's locals are extended (old prefix kept) by PrivateGlobals of the global list: the Private globals, in list order, each as often as it is listed; nothing else changes. |
| GlobalVars.PrivateGlobals | spirv_msl.cpp:132-145 | Selects exactly the Private variables of the list and no more elements than the list has. |
| GlobalVars.PrivateGlobalsCounts | spirv_msl.cpp:132-145 | Each Private variable is selected as often as it occurs in the list, every other ID not at all. |
| GlobalVars.PrivateGlobalsAppend | spirv_msl.cpp:132-145 | The selection keeps list order: selecting from a concatenation concatenates the selections. |
| GlobalVars.GlobalVarIds | spirv_msl.cpp:153-166 | Holds exactly the variables of Input, Uniform, UniformConstant and PushConstant storage. |
| GlobalVars.Hit | spirv_msl.cpp:203-213 | A load or access chain contributes its base exactly when the base is a collected ID or in the global list. |
| GlobalVars.ExtractFrom | spirv_msl.cpp:176-231 | A processed function answers from the memo (nothing while still in progress) and changes no state; an unprocessed one is completed and memoised with its answer; the found set only holds extractable IDs. |
| GlobalVars.Scan | spirv_msl.cpp:193-229 | The scan only adds extractable IDs to the accumulated set and processes every callee it meets. |
| GlobalVars.ExtractAgrees | spirv_msl.cpp:176-231 | On an acyclic call graph, the walk's answer for a function equals the reference set Needs (own loads and access chains plus the callees' sets), and every memo entry stays correct. |
| GlobalVars.ExtractionNeeds | spirv_msl.cpp:150-231 | On an acyclic call graph, every completed function's memo entry equals its reference set. |
| GlobalVars.Extraction | spirv_msl.cpp:150-152 | The walk from the entry point completes the entry function; the processed functions are exactly the memoised ones, each recorded once in completion order; every callee of a memoised function is memoised too; every set holds only extractable IDs. |
| GlobalVars.ReachedIsCompleted | spirv_msl.cpp:176-231 | Every function reachable from the entry point through a chain of calls is completed and memoised by the walk. |
| GlobalVars.ParamsFromIndex | spirv_msl.cpp:237-249 | The i-th new parameter has the type of the i-th global and the ID next + i. |
| GlobalVars.AddArgsFromParams | spirv_msl.cpp:237-240 | The loop appends exactly one parameter per global to the existing list. |
| GlobalVars.AddArgsFromKeepsVars | spirv_msl.cpp:237-241 | Existing variables below the new IDs are kept. |
| GlobalVars.AddArgsFromNewVars | spirv_msl.cpp:241 | Each new ID is a Function-storage variable typed like its global. |
| GlobalVars.AddArgsFromVarsDomain | spirv_msl.cpp:237-241 | No variable besides the new parameters is created. |
| GlobalVars.AddArgsFromFrame | spirv_msl.cpp:243-248 | Metadata of IDs the loop neither renames nor allocates is untouched. |
| GlobalVars.AddArgNames | spirv_msl.cpp:243-248 | One iteration renames the global, gives the new variable the same name, and copies the global's qualified alias to it. |
| GlobalVars.AddArgsFromGlobalNames | spirv_msl.cpp:244-245 | Every global the loop handles ends with the validated name and its other metadata unchanged. |
| GlobalVars.AddArgsFromParamNames | spirv_msl.cpp:244-248 | Each new parameter variable takes its global's validated name and qualified alias. |
| GlobalVars.AddArgsParams | spirv_msl.cpp:236-250 | Only f's parameter list changes: it gains one parameter per global, numbered consecutively from next. |
| GlobalVars.AddArgsVars | spirv_msl.cpp:236-250 | Existing variables are kept, and the only new variables are the Function-storage parameters typed like their globals. |
| GlobalVars.AddArgsNames | spirv_msl.cpp:243-248 | Each global is renamed to ensure_valid_name(to_name(global), "v"); its parameter takes the same name and its qualified alias; no other ID's metadata changes. |
| GlobalVars.ArgOrder | spirv_msl.cpp:237 | The visiting order lists each found global exactly once. |
| GlobalVars.AddFunctionParams | spirv_msl.cpp:233-251 | The entry function changes nothing; any other function raises the bound by the number of globals and gains exactly their parameters from the old bound, other functions and existing variables untouched. |
| GlobalVars.AddGlobalParams | spirv_msl.cpp:234-251 | For a non-entry function the bound grows by the number of globals and the function's parameter list gains one parameter per global, in visiting order. |
| GlobalVars.AddAllParams | spirv_msl.cpp:231-251 | Over the completion order, the bound grows by the total allocated; functions not completed and the entry function keep their records; existing variables are kept. |
| GlobalVars.AddAllParamsGains | spirv_msl.cpp:236-250 | The k-th completed non-entry function gains its globals' parameters numbered from the bound left by the functions completed before it. |
| GlobalVars.ExtractGlobalVariablesFromFunctions | spirv_msl.cpp:150-171 | The entry function and every function not reached keep their records; the bound grows by the parameters allocated; existing variables are kept. |
| GlobalVars.ExtractGainsParams | spirv_msl.cpp:233-250 | The k-th function of the completion order, if not the entry function, gains its globals' parameters after its own, numbered from the bound left by the functions before it. |
| GlobalVars.ReachedGainsParams | spirv_msl.cpp:150-250 | Every non-entry function reachable from the entry point keeps its own parameters and gains after them one parameter per global of its memoised set, typed like the global, with consecutive IDs from at least the old bound. |
| GlobalVars.AppendedParamsGained | spirv_msl.cpp:237-249 | Appending the parameters built for a list of globals keeps the old parameters as a prefix and adds one per global, typed like it, with consecutive IDs. |
| GlobalVars.ReachedGainsNeeds | spirv_msl.cpp:150-250 | On an acyclic call graph, a reachable non-entry function gains exactly one such parameter per global of its reference set Needs: its own loads and access chains plus its callees' sets. |
| GlobalVars.AllocatedPrefix | spirv_msl.cpp:236 | The ID blocks allocated to successive functions follow one another and stay below the final bound. |
| InterfaceBlock.Candidates | spirv_msl.cpp:268-283 | Exactly the variables of the storage class that the entry point uses, that are not hidden and that have pointer type, in ascending ID order. |
| InterfaceBlock.MemberLocation | spirv_msl.cpp:363 | A member with a Location decoration reads that location; an undecorated member reads 0. |
| InterfaceBlock.StructEntry | spirv_msl.cpp:348-375 | A struct member's block member has the member's type and the validated qualified name built from the struct's declared ID; it is a builtin, decorated BuiltIn with the source member's builtin kind, exactly when the declared struct marks the member as one; it carries a Location decoration holding the location read through the variable's type ID; its qualified name is written back to that type ID's member. |
| InterfaceBlock.ScalarEntry | spirv_msl.cpp:379-403 | A scalar variable's block member has the variable's type and its validated expression as name; it carries a Location decoration exactly when the variable has one, with the same value; it is a builtin, decorated BuiltIn with the variable's builtin kind, exactly when the variable is; its qualified name is written back to the variable. |
| InterfaceBlock.FlattenCount | spirv_msl.cpp:340-415 | The block has one member per member type of each struct variable, one per scalar variable, none for anything else. |
| InterfaceBlock.FlattenQualified | spirv_msl.cpp:355-394 | The qualified name written back for each block member is the block reference, ".", and that member's own name. |
| InterfaceBlock.ApplyQualifiedMember | spirv_msl.cpp:358-360 | A struct member whose block member is created gets the new qualified name, every other keeps its own, and nothing else in the record changes. |
| InterfaceBlock.ApplyQualifiedVariable | spirv_msl.cpp:393-395 | A scalar variable whose block member is created gets the new qualified name, every other keeps its own, and nothing else changes. |
| InterfaceBlock.SortBlock | spirv_msl.cpp:417-432 | The two sorts rearrange the type/decoration pairs and leave them ordered by name for fragment inputs and vertex outputs, by descending location for other inputs, by ascending location otherwise. |
| InterfaceBlock.InstallBlock | spirv_msl.cpp:292-301 | Takes three IDs: the Block-decorated struct type, then its variable whose initializer is the third ID. |
| InterfaceBlock.ReturnBlockVariable | spirv_msl.cpp:314-324 | The entry function's locals become the old locals followed by the block variable; its parameters and block list, all other functions, the types, variables and metadata are unchanged; exactly the entry function's Return blocks now return the block variable, and every block keeps its instructions and terminator. |
| InterfaceBlock.WireBlock | spirv_msl.cpp:304-335 | Only an output block is wired into the entry function. |
| InterfaceBlock.PositionName | spirv_msl.cpp:372-373 | A Position member's qualified name is recorded exactly when some member is the Position builtin, and the last such member wins. |
| InterfaceBlock.BuildBlock | spirv_msl.cpp:292-299 | The block variable is the second of the three new IDs. |
| InterfaceBlock.BlockArena | spirv_msl.cpp:292 | Adding a block raises the bound by three. |
| InterfaceBlock.BlockArenaType | spirv_msl.cpp:293-296 | The new type is a struct of the block's storage class holding the sorted member types and decorations. |
| InterfaceBlock.BlockArenaTypeName | spirv_msl.cpp:297-337 | The type is decorated Block and named entry name + "_" + block reference. |
| InterfaceBlock.BlockArenaVariable | spirv_msl.cpp:299-338 | The block variable has the block type and storage, the third ID as initializer, and the block reference as its name. |
| InterfaceBlock.BlockArenaKeepsTypes | spirv_msl.cpp:292-301 | Existing types, the entry point and the global list are unchanged. |
| InterfaceBlock.BlockArenaKeepsVars | spirv_msl.cpp:292-301 | Existing variables are unchanged. |
| InterfaceBlock.BlockArenaQualifiedMember | spirv_msl.cpp:358-360 | Members of existing struct types get the block-qualified name exactly when they are flattened; everything else in their records is kept. |
| InterfaceBlock.BlockArenaQualifiedVariable | spirv_msl.cpp:393-395 | Existing variables get the block-qualified name exactly when they are flattened scalars; everything else in their decorations is kept. |
| InterfaceBlock.BlockArenaLocals | spirv_msl.cpp:314-318 | Only an output block touches the functions: it is appended to the entry function's locals, and nothing else changes. |
| InterfaceBlock.BlockArenaReturns | spirv_msl.cpp:319-324 | Only an output block touches the blocks: every returning block of the entry function returns the block variable, and nothing else changes. |
| InterfaceBlock.BlockHasEntry | spirv_msl.cpp:340-432 | Every flattened member is in the block, its type still paired with its decoration. |
| InterfaceBlock.BlockQualifiesEntry | spirv_msl.cpp:355-395 | A flattened member's source is written back as block reference + "." + member name. |
| InterfaceBlock.CandidatesEmpty | spirv_msl.cpp:268-287 | The walk finds nothing exactly when no variable qualifies. |
| InterfaceBlock.AddInterfaceBlockAbsent | spirv_msl.cpp:285-299 | Returns 0 and changes nothing exactly when no variable qualifies; otherwise returns the second of three IDs taken from the bound. |
| InterfaceBlock.AddInterfaceBlockBuilds | spirv_msl.cpp:266-435 | With qualifying variables, the arena, the marked locations and the Position name are those of the block built from their flattened members. |
| InterfaceBlock.AddInterfaceBlockMemberCount | spirv_msl.cpp:340-415 | The block type has one member type and one member decoration per struct member and scalar variable flattened. |
| InterfaceBlock.AddInterfaceBlockMembers | spirv_msl.cpp:417-432 | The block's members are the flattened ones rearranged, pairs kept, in the final sort order. |
| InterfaceBlock.EntriesOfCandidate | spirv_msl.cpp:340-415 | Every member a qualifying variable contributes is flattened. |
| InterfaceBlock.AddInterfaceBlockStructMember | spirv_msl.cpp:344-377 | Each member of a qualifying struct variable becomes a block member named by the validated qualified member name of the declared struct, builtin as the declared struct says, and carrying the location read through the variable's type ID. |
| InterfaceBlock.AddInterfaceBlockStructQualified | spirv_msl.cpp:355-360 | Each such struct member's qualified name becomes block reference + "." + its block member's name. |
| InterfaceBlock.AddInterfaceBlockScalarMember | spirv_msl.cpp:379-403 | A qualifying scalar variable becomes one block member named by its validated expression. |
| InterfaceBlock.AddInterfaceBlockScalarQualified | spirv_msl.cpp:390-395 | A qualifying scalar variable's qualified name becomes block reference + "." + its member name. |
| InterfaceBlock.AddInterfaceBlockMarks | spirv_msl.cpp:255-262 | Only a vertex shader's input block marks vertex attributes: exactly the attribute locations some block member carries. |
| Naming.MslName | spirv_msl.cpp:1428-1438 | Inside the entry function a non-empty qualified alias replaces the name; otherwise the plain name is used. |
| Naming.BaseName | spirv_msl.cpp:1436 | The fallback name is the alias when one is set; an unnamed ID's generated name is "_" followed by text that parses back to the ID, so distinct unnamed IDs never share a name. |
| Naming.EnsureValidName | spirv_msl.cpp:1456-1471 | Transient ("_" + digit) and reserved names get the prefix; every other name is unchanged. |
| Naming.EnsureValidNameNotTransient | spirv_msl.cpp:1456-1471 | With a prefix not starting with '_', the result is never a transient name. |
| Naming.EnsureValidNameIdempotent | spirv_msl.cpp:1456-1471 | Validating twice equals validating once, unless the prefixed name is itself reserved. |
| Naming.UnnamedIdGetsPrefix | spirv_msl.cpp:1458-1461 | An unnamed ID's generated name "_N" always gets the prefix. |
| Naming.CleanFuncName | spirv_msl.cpp:1266-1270 | "main" and "saturate" become "main0" and "saturate0", every other name is kept, and the result is never "main" or "saturate". |
| Naming.CleanFuncNameCollision | spirv_msl.cpp:37-41 | The override table is not injective: "main" and "main0" render alike. |
| Naming.SetEntryPointName | spirv_msl.cpp:1272-1277 | The entry point's alias starts with the given name and contains "main", equals the name exactly when that contains "main", and nothing else changes. |
| Naming.PrefixAlias | spirv_msl.cpp:676-682 | The rewritten alias starts with 'm'; an alias already starting with 'm' is kept; any other alias (the empty one included) becomes "m" followed by it. |
| Naming.PrefixFunctionAliases | spirv_msl.cpp:668-688 | Only non-entry functions' aliases change, each by PrefixAlias. |
| Naming.PrefixPassIdempotent | spirv_msl.cpp:668-688 | A second declaration pass leaves the metadata as the first did. |
| Naming.IntendedFunctionName | spirv_msl.cpp:678-681 | The corrected rewrite: "m" followed by the function's display name. |
| Naming.IntendedNamesDistinct | spirv_msl.cpp:678-681 | Under the corrected rewrite distinct unnamed functions keep distinct names. |
| Naming.PrefixAliasCounterexamples | spirv_msl.cpp:676-682 | As written, two unnamed functions both become "m", and "max" is left unprefixed. |
| Naming.BuiltinName | spirv_msl.cpp:1605-1633 | Vertex/instance builtins are renamed; output builtins are qualified by the stage-out name inside the entry function; all else falls back to the generic name. |
| Naming.StripLeadingUnderscores | spirv_msl.cpp:1448-1450 | Removes exactly the leading underscores: the result is a suffix, the removed prefix is all '_', and the result does not start with '_'. |
| Naming.MemberName | spirv_msl.cpp:1448 | A member's name is its alias when one is set; an unnamed member's generated name is "_" followed by text that parses back to the member index. |
| Naming.QualifiedMemberName | spirv_msl.cpp:1440-1453 | Builtin members keep their builtin name; others are struct name + "_" + member name with leading underscores removed, for the struct ID it is given (the interface-block pass gives the declared struct's ID). |
| Render.VectorNameExtendsScalarName | spirv_msl.cpp:1498-1535 | A vector's type name is its scalar's name followed by the component count. |
| Render.TypeToMsl | spirv_msl.cpp:1498-1549 | A struct is named after its declared type, so an unnamed struct's name parses back to that type's ID; a supported image type's name parses back to its canonical texture shape and the name of its pixel type. |
| Render.WidthDistinguishesNames | spirv_msl.cpp:1498-1535 | 16-bit and 32-bit numeric scalars and vectors get different names. |
| Render.MatrixNameRoundTrip | spirv_msl.cpp:1537-1549 | A matrix name parses back to its column and row counts after the half/float prefix. |
| Render.DimsRoundTrip | spirv_msl.cpp:1545-1548 | The "CxR" suffix of a matrix name parses back to its column and row counts. |
| Render.ImageTypeName | spirv_msl.cpp:1553-1601 | The texture name is the template name followed by "<pixel type>". |
| Render.TextureBaseName | spirv_msl.cpp:1557-1594 | Supported images get a template name that parses back to their canonical shape; unsupported ones a placeholder that parses to nothing; no template name contains '<'. |
| Render.ImageTypeNameRoundTrip | spirv_msl.cpp:1553-1601 | A full texture type name parses back to the canonical shape and the exact pixel type name it was built from; an unsupported image's name parses to nothing. |
| Render.BuiltinQualifierCollisions | spirv_msl.cpp:1636-1690 | The table BuiltinQualifier gives two supported builtins the same attribute name exactly when they denote the same Metal attribute. |
| Render.SameAttributeSameQualifier | spirv_msl.cpp:1643-1668 | Builtins denoting the same attribute get the same attribute name. |
| Render.QualifierClassOf | spirv_msl.cpp:1643-1668 | A supported builtin's attribute name identifies which Metal attribute it denotes. |
| Render.SameClassSameAttribute | spirv_msl.cpp:1643-1668 | Builtins denoting the same Metal attribute are treated as the same attribute. |
| Render.FragDepthQualifier | spirv_msl.cpp:1675-1688 | The depth attribute is supported exactly when a depth mode is declared; DepthGreater wins. |
| Render.TypedBuiltinsHaveQualifier | spirv_msl.cpp:1693-1729 | Every builtin with a declared type also has an attribute name. |
| Render.BuiltinTypeDeclIsRenderedType | spirv_msl.cpp:1693-1729 | The table BuiltinTypeDecl agrees with the type renderer: each typed builtin's declared type is the name TypeToMsl gives its value type. |
| Render.OrderedMemberLocation | spirv_msl.cpp:1177-1188 | An explicit Location decoration wins; otherwise the member index is the location. |
| Render.MemberAttributeCarriesLocation | spirv_msl.cpp:1075-1171 | A non-builtin member of a vertex/fragment input/output struct gets an attribute whose number parses back to its ordered location; elsewhere it gets none. |
| Render.VertexPositionAttribute | spirv_msl.cpp:1104-1118 | The vertex Position output member carries " [[position]]". |
| Render.ComponentArgument | spirv_msl.cpp:984-1010 | Succeeds exactly for constants 0..3, giving "component::" and the matching letter of xyzw; a non-constant and an out-of-range value raise their errors. |
| TypeSize.MulU32 | spirv_msl.cpp:1778 | The 32-bit product is below 2^32, congruent to the exact product modulo 2^32, and equal to it when no wrap occurs. |
| TypeSize.MulU64 | spirv_msl.cpp:1783 | The size_t product is below 2^64, congruent to the exact product modulo 2^64, and equal to it when no wrap occurs. |
| TypeSize.PaddedShape | spirv_msl.cpp:1786-1790 | RowMajor with 3 columns counts 4 columns; otherwise ColMajor with 3 rows counts 4 rows; otherwise the shape is unchanged. |
| TypeSize.DeclaredTypeSize | spirv_msl.cpp:1748-1794 | Structs are measured by the base compiler; an error is raised exactly for Unknown, Void, AtomicCounter, Image, SampledImage and Sampler; a strided array is stride × outermost length in 32 bits. |
| TypeSize.MemberLayoutDecidesPadding | spirv_msl.cpp:1733-1744 | A member is measured under the member's own decoration mask, not the type's: a RowMajor member whose type has 3 columns is measured with 4 padded columns, while the same type measured on its own is unpadded. |
| TypeSize.UndecoratedMemberIsUnpadded | spirv_msl.cpp:1733-1738 | A matrix member without layout decorations is measured at columns × rows × width/8 bytes. |
| TypeSize.StridedMemberUsesTypeStride | spirv_msl.cpp:1733-1779 | A member whose type is a strided array measures the same as its type: stride × outermost length, wrapped at 2^32. |
| TypeSize.VectorSize | spirv_msl.cpp:1781-1783 | A scalar or vector is vecsize × width/8 bytes, whatever the layout decorations. |
| TypeSize.ColumnMajorMatrixIsColumns | spirv_msl.cpp:1784-1793 | A column-major matrix is columns × the size of its column vector, padded to four components when it has three. |
| TypeSize.RowMajorMatrixIsRows | spirv_msl.cpp:1784-1793 | A row-major matrix is rows × the size of a row, padded to four when there are three columns. |
| TypeSize.RowMajorTakesPrecedence | spirv_msl.cpp:1787-1790 | With both layouts on a 3×3 matrix only the columns are padded: 12 components. |
| TypeSize.UnstridedArrayIsElement | spirv_msl.cpp:1772-1779 | An array without ArrayStride is measured as its element. |
| TypeSize.StridedArrayIgnoresInnerLengths | spirv_msl.cpp:1778 | Only the outermost (last) array length counts for a strided array. |
| TypeSize.StrideProductWraps | spirv_msl.cpp:1778 | The stride product wraps at 2^32: 65536 × 65536 gives 0. |

## Left out

- Text emission is not modelled: `emit_header`, `emit_resources`, `emit_custom_functions`, function prototypes, `emit_instruction`, `emit_fixup`, `member_decl`, `argument_decl`, `entry_point_args` and `func_type_decl`. The model covers the IR rewrites and the naming and rendering tables that emission consumes.
- Texture call synthesis (`to_function_name`, `to_function_args`, `emit_sampled_image_op`, `to_sampler_expression`) and `constant_expression` are not modelled. They are output formatting outside the modelled rewrites. The gather selector `to_component_argument` is modelled.
- `register_custom_functions` and `CustomFunctionHandler` are not modelled. They only choose which helper functions to print.
- Driver.Compile: emission is left out, and so is `force_recompile`. The recompile request after each pass is a parameter. A pass contributes only its resource-slot assignment. Locale pinning is left out because it has no effect on the model.
- The base compiler's services are parameters:
  - `get_declared_struct_size` (`structSize`);
  - the generic `builtin_to_glsl` (`glslName`);
  - `to_expression`, `interface_variable_exists_in_entry_point` and `is_hidden_variable` (fields of `InterfaceBlock.Env`);
  - `get_entry_point_name` (`Env.entryName`);
  - the reserved-name list;
  - the stage variable names.
- `set_name` is modelled as a plain store of the alias. The base compiler's handling of names is not shown.
- GlobalVars.ExtractAgrees and GlobalVars.ExtractionNeeds: the reference definition is proved equal to the walk only when the call graph is acyclic, given by a rank on the functions. On a cyclic graph the walk still terminates, and an in-progress function answers with the empty set, as in the source. No property beyond termination and the frame is claimed for that case.
- The order of `std::unordered_set` iteration is modelled as ascending ID order. The source leaves it unspecified, so parameter numbering in the source may differ by a permutation.
- Entry-point argument emission is not modelled. It issues the resource requests that ResourceIndex.AssignAll serves; the requests are modelled as a sequence.
- `to_array_size_literal` for specialisation-constant array lengths is not modelled. `Ir.Type.arraySizes` holds literal lengths only.
- Render.TypeToMsl names a struct by the plain name of its declared type. Inside the entry function the source's `to_name` could return a qualified alias; that substitution is modelled separately by Naming.MslName.
- The slot counters of `next_metal_resource_index` are `uint32_t` in the source (spirv_msl.cpp:1397-1401) and would wrap after 2^32 allocations of one kind. The model's counters are unbounded naturals, so ResourceIndex.AutoAllocate, ResourceIndex.GetMetalResourceIndex and ResourceIndex.AutoIndicesIncrease do not model that wrap.
- `Compiler::to_name` and `Compiler::to_member_name` belong to the base compiler; Naming.BaseName and Naming.MemberName model their alias-or-generated-name rule.
- Render.MemberAttributeQualifier has no contract of its own. Its properties are stated by Render.MemberAttributeCarriesLocation and Render.VertexPositionAttribute.
- TypeSize.VectorSize, TypeSize.ColumnMajorMatrixIsColumns and TypeSize.RowMajorMatrixIsRows are stated for shapes of at most 4 × 4 components of at most 64 bits. These are the shapes SPIR-V allows, and no product wraps for them.
- The per-pass reset of the front end's transient state (`reset()`) is not modelled. Only the reset of the slot counters is.

## Findings

| source | as written | input that shows it | evidently intended | confidence | as-written member | corrected member |
|---|---|---|---|---|---|---|
| spirv_msl.cpp:676-682 | The alias of each non-entry function is prefixed with "m" unless it already starts with 'm'. An empty alias reads its terminating NUL and becomes "m". | Two unnamed non-entry functions both get the alias "m". A function named "max" stays "max", which is the name of a Metal standard-library function. | Every non-entry function is emitted as "m" followed by its display name from before the first pass. Distinct functions then keep distinct names, and no name escapes the prefix. | not executed | Naming.PrefixAliasCounterexamples | Naming.IntendedNamesDistinct |

# UEFI helper: a Dafny model of the annotation core

`helper.py` is a Binary Ninja plugin for UEFI PEI and DXE modules. After the
host has fixed up segments and imported the UEFI header types, the plugin
types the entry point of a non-TE image: its first two parameters become
`ImageHandle: EFI_HANDLE` and `SystemTable: EFI_SYSTEM_TABLE *`. This raises
when no function starts at the entry point or the function has fewer than two
parameters. Then it makes three passes over the analysed image:

1. **Known GUIDs.** Every 16-byte window of every segment is read. A window
   whose bytes are a GUID listed in `guids.csv` gets a `g<Name>` data symbol
   and the `EFI_GUID` type. The exception is an address where a function
   starts.
2. **Global variables for the UEFI core services.**
   - Phase A walks the entry function's instructions. For each direct call,
     it copies the names and types of caller variables whose type text
     contains `EFI_` onto the callee's parameters.
   - Phase B walks every instruction of every function. A store of a
     variable to a constant address names the global after the variable's
     type, using six fixed rows: `gHandle`, `gBS`, `gRS`, `gST`, `gHandle`,
     `gPeiServices`. The type is applied too, and each `gBS` address is
     remembered.
3. **Protocol globals.** The host re-analyses the image. Then every code
   reference to a remembered `gBS` global is followed to its function. Each
   call through `->LocateProtocol`, `->InstallMultipleProtocolInterfaces` or
   `->InstallProtocolInterface` whose GUID and interface arguments are
   constant pointers names the interface global after the GUID. It drops
   `Guid` from that name.

The GUID knowledge base maps a GUID's text form to its name. The plugin's
constructor loads it once: rows are converted to the GUID's 16 bytes in
little-endian field order. A malformed GUID makes the constructor raise.

## How the model is built

- Every pass is a pure function over an abstract `Ir.Host`. The host holds:
  - the mapped bytes;
  - the segments;
  - the functions, each with its start, extent, arity, variable table and
    top-level instructions;
  - the entry point;
  - the code references;
  - whether the image is a Terse Executable (TE).
- A pass returns the annotations (symbol, address, optional data type) that
  the plugin would ask the host to record. It does not mutate anything.
- The host's re-analysis is a parameter. It may change the functions and the
  code references, but not the bytes, segments or entry point.
- The exceptions the plugin lets escape become `Ir.Failure` outcomes, and an
  outcome ends the run. There are five:
  - calling a missing function, or a missing entry function (`NoFunctionAt`);
  - a missing entry parameter (`NoParameter`);
  - too few call arguments (`TooFewArguments`);
  - the out-of-range parameter index (`ArgumentIndexOutOfRange`);
  - `len(None)` on an unmapped GUID address (`UnmappedGuid`).

  Annotations recorded before the exception are kept.
- Python's `dict` is an insertion-ordered list of pairs (`OrderedDict`). A
  repeated key keeps its first position and takes the last value.
- `uuid.UUID(hex).bytes_le` is `Guid.Parse`. It strips `urn:`, `uuid:` and
  braces, drops hyphens, and decodes 32 hex digits. The first three fields
  are byte-reversed.

Modules, bottom-up:
- `Wrappers`, `Text`, `Seqs`: general helpers.
- `Guid`: text to bytes and back.
- `OrderedDict`, `KnowledgeBase`: `_load_guids`, `_check_guid_and_get_name`.
- `Ir`: the host.
- `Scanner`: pass 1.
- `GlobalResolver`: pass 2.
- `ProtocolResolver`: pass 3.
- `Pipeline`: `_set_entry_point_prototype` and `run`.

## Model

`_apply_guid_name_if_data` (helper.py:89-105) is `Scanner.ApplyGuidNameIfData`;
what it records is stated by `Scanner.Probe` and `Scanner.ProbeAtEmits`, the
probe that calls it. `Pipeline.GlobalAnnotations` only turns the matches of
pass 2 into annotations; `Pipeline.GlobalAnnotationsFromStores` states what
they are.

| member | source | states |
|---|---|---|
| Guid.Parse | helper.py:85 | a GUID text either fails to convert or gives exactly 16 bytes |
| Guid.ParseCanonical | helper.py:85 | a canonical hyphenated GUID always converts; the result is its 32 hex digits decoded with the first three fields byte-reversed |
| Guid.ParseLayout | helper.py:85 | field by field: bytes 0-3, 4-5 and 6-7 are the first three groups reversed, and bytes 8-15 are the last two groups in order |
| Guid.SwapFields | helper.py:85 | the little-endian field swap moves each byte to a fixed position |
| Guid.SwapFieldsInvolutive | helper.py:85 | swapping the fields twice gives the bytes back |
| Guid.DecodeEncode | helper.py:85 | decoding the hex text of any bytes gives those bytes back |
| Guid.Format | helper.py:96 | the text form of 16 bytes is a canonical hyphenated GUID |
| Guid.FormatParseRoundTrip | helper.py:85 | converting the text form of any 16 bytes gives the same bytes back |
| Guid.NormalizeCanonical | helper.py:85 | for a canonical GUID, stripping prefixes, braces and hyphens leaves exactly its 32 digits |
| OrderedDict.Get | helper.py:80 | a lookup misses exactly when no entry has the key, and a hit returns a stored value of that key |
| OrderedDict.Insert | helper.py:85 | after an update the key maps to the new value; a new key is appended, and updating an existing key keeps the length |
| OrderedDict.InsertKeys | helper.py:85 | an update keeps every key at its position, and unique keys stay unique |
| OrderedDict.InsertOther | helper.py:85 | updating one key leaves every other key's lookup unchanged |
| OrderedDict.FromPairs | helper.py:80 | building a dict from rows gives unique keys and no more entries than rows |
| OrderedDict.FromPairsPresent | helper.py:80 | a key is in the built dict exactly when some row carries it |
| OrderedDict.FromPairsLastWins | helper.py:80 | the value of a key is the one in its last row |
| OrderedDict.FromPairsDistinct | helper.py:80 | rows with distinct keys build a dict holding exactly those rows, in row order |
| KnowledgeBase.ConvertItems | helper.py:84-85 | converting the items fails exactly when some GUID text fails; otherwise each name is paired with its GUID's bytes, in order |
| KnowledgeBase.Load | helper.py:71-87 | a loaded knowledge base has unique names and 16-byte values |
| KnowledgeBase.LoadDistinct | helper.py:80-85 | a table whose GUID texts and names are all distinct and all convert loads row by row: entry `i` is row `i`'s name with its GUID's bytes |
| KnowledgeBase.LoadFailsOnMalformedRow | helper.py:80-85 | loading fails exactly when some row's GUID text does not convert |
| KnowledgeBase.DuplicateGuidKeepsLastName | helper.py:80 | of two rows with the same GUID text, the later name survives |
| KnowledgeBase.DuplicateNameKeepsLastBytes | helper.py:84-85 | two different GUIDs under one name keep only the later GUID's bytes |
| KnowledgeBase.IndexOfValue | helper.py:115-117 | the position found holds the queried bytes, and no earlier entry does |
| KnowledgeBase.LookupName | helper.py:107-119 | the name lookup misses exactly when no entry holds the bytes; a hit is the first entry that does |
| KnowledgeBase.LookupRoundTrip | helper.py:114-119 | when every entry's bytes are distinct, looking up a name's own bytes gives the name back |
| Ir.Read | helper.py:234-235 | a read fails exactly when its start is unmapped; otherwise it returns the mapped bytes from the start, up to the first gap or the requested length |
| Ir.ReadWindow | helper.py:129-130 | when all 16 addresses are mapped, the read returns exactly the 16 bytes stored there |
| Ir.ReadFull | helper.py:129-130 | a read returns all 16 bytes exactly when all 16 addresses are mapped, and then it returns those bytes |
| Ir.PlacedWindows | helper.py:128-133 | in memory holding only one 16-byte value, the only full 16-byte window is at that value's address, and it holds the value |
| Ir.FunctionAt | helper.py:201 | finds the first function starting at an address, or none exactly when no function starts there |
| Ir.FunctionsContaining | helper.py:278-280 | lists only functions whose extent holds the address, and is empty exactly when none does |
| Scanner.Probe | helper.py:127-135 | at one address: one annotation exactly when the 16 bytes there are mapped, name a known GUID and no function starts there, otherwise none |
| Scanner.CollectSound | helper.py:126-127 | every collected annotation comes from a probe inside the range |
| Scanner.CollectComplete | helper.py:126-127 | every address in the range whose probe succeeds is collected |
| Scanner.CollectOrdered | helper.py:126-127 | collected addresses strictly increase |
| Scanner.ScanRange | helper.py:126-135 | within one segment the scan is sound, complete and in address order |
| Scanner.ScanRangeNothing | helper.py:126-135 | a range where nothing qualifies yields no annotations |
| Scanner.ProbeAtEmits | helper.py:128-135 | the probe at an address yields an annotation exactly when the 16 bytes there are mapped, name a known GUID and no function starts there, and then it is the `g`-named GUID annotation |
| Scanner.CollectSegmentsSound | helper.py:126-127 | every annotation collected over the segments lies in some segment and is the probe's only result at its address |
| Scanner.CollectSegmentsComplete | helper.py:126-127 | every address of any segment whose probe yields an annotation is collected |
| Scanner.SegmentsEmitted | helper.py:126-135 | each annotation of the segment scan lies in a segment, qualifies at its address, and is a non-empty `g`-prefixed symbol typed `EFI_GUID` |
| Scanner.FindKnownGuids | helper.py:122-135 | the whole pass is sound and complete over the segments, and every annotation is a `g`-prefixed, `EFI_GUID`-typed symbol |
| Scanner.FindKnownGuidsStarts | helper.py:99-101 | the scan reads the functions only for where they start: functions starting at the same addresses give the same annotations |
| Scanner.LoneGuidNamed | helper.py:122-135 | an image holding one known GUID in data gets exactly one annotation, `gTestGuid` at its address |
| Scanner.LoneGuidOverCodeIgnored | helper.py:99-101 | the same GUID where a function starts gets no annotation |
| GlobalResolver.Classify | helper.py:164-179 | a type names a core global exactly when one of the six rows matches its tokens; the matching row fixes the symbol, and only the `gBS` row is remembered |
| GlobalResolver.ClassifyBootServices | helper.py:166-168 | a type is remembered as BootServices exactly when it has two tokens led by `EFI_BOOT_SERVICES` |
| GlobalResolver.BareBootServicesIgnored | helper.py:164-179 | the token counts matter: a one-token `EFI_BOOT_SERVICES` is ignored, a pointer to it is `gBS`, and a pointer to `EFI_HANDLE` is ignored |
| GlobalResolver.SetIfUefiCoreType | helper.py:137-182 | an instruction is a match exactly when it stores a variable of a core type through a constant pointer; the match carries that address, that variable's type and the classified symbol |
| GlobalResolver.ResolveBody | helper.py:223-225 | a function's matches are exactly the matching instructions of its body |
| GlobalResolver.ResolveBodyStep | helper.py:223-225 | a body's matches are the first instruction's matches followed by the rest's |
| GlobalResolver.SetGlobalVariables | helper.py:222-225 | phase B reports a match for every matching instruction of every function, and nothing else |
| GlobalResolver.BootServicesAddresses | helper.py:168 | an address is remembered exactly when some match is a BootServices match at that address |
| GlobalResolver.BootServicesAppend | helper.py:168 | the remembered list grows in instruction order |
| GlobalResolver.BootServicesFromStores | helper.py:146-168 | an address is remembered exactly when some instruction stores a two-token `EFI_BOOT_SERVICES` variable there |
| GlobalResolver.BootServicesInFunctionOrder | helper.py:222-225 | the list for a sequence of functions is the concatenation of the lists for its parts |
| GlobalResolver.DuplicateBootServicesKept | helper.py:168 | two stores to one address put it on the list twice |
| GlobalResolver.PropagateVars | helper.py:203-210 | parameter copying raises exactly when the call has fewer arguments than the callee's arity; otherwise each parameter takes the argument variable's name and type when that type mentions `EFI_`, and nothing else changes |
| GlobalResolver.UnwrapAssign | helper.py:192-193 | an `Assign` or `AssignUnpack` becomes its source, anything else is kept, and well-formedness over any variable table is preserved |
| GlobalResolver.CheckAndPropTypesOnCall | helper.py:184-210 | a non-call changes nothing; an instruction raises exactly when it is a failing direct call, with that call's exception: `NoFunctionAt` when no function starts at its target, else `TooFewArguments` when it has fewer arguments than the callee's arity; only the function at the target can change, and shapes are kept |
| GlobalResolver.PropagationEffect | helper.py:201-210 | a call to another function raises exactly when it is short of arguments; otherwise it updates only the callee's parameters, as `PropagateVars` says |
| GlobalResolver.SelfCallEffect | helper.py:201-210 | a function calling itself raises exactly when it is short of arguments; otherwise only its own table changes, each parameter decided against the table with the parameters before it already updated |
| GlobalResolver.PropagateVarsSelf | helper.py:204-210 | in a self-call each parameter takes the argument variable from the table as the loop left it |
| GlobalResolver.PropagateBody | helper.py:218-220 | a body without direct calls changes nothing; a raise is one a direct call of the body can raise; a function no direct call targets keeps its variables; shapes are kept |
| GlobalResolver.PropagateEntry | helper.py:217-220 | a missing entry function raises; any other raise is one a direct call of the entry body can raise; a function the entry body never calls keeps its variables; shapes are kept |
| GlobalResolver.FirstCallFailure | helper.py:198-206 | the result is `None` exactly when no direct call of the body fails; otherwise it is the exception of the first call that fails, with every earlier call passing |
| GlobalResolver.PropagateBodyRaises | helper.py:218-220 | the loop over a body raises exactly when one of its direct calls has no function at its target or too few arguments, judged against the functions before the loop, and it raises the first such call's exception |
| GlobalResolver.PropagateEntryRaises | helper.py:217-220 | phase A raises exactly when the entry function is missing or one of its direct calls fails, with the first failing call's exception |
| GlobalResolver.ResolveGlobals | helper.py:212-225 | pass 2 fails exactly when phase A raises; otherwise its matches are phase B over the functions phase A updated |
| GlobalResolver.SampleCallCopiesBothParameters | helper.py:203-210 | an entry passing its ImageHandle and SystemTable to an untyped initialiser gives the initialiser both types |
| GlobalResolver.SamplePhaseA | helper.py:217-220 | phase A from the sample entry function updates only the initialiser's parameters, through the one call it makes |
| GlobalResolver.SampleMatches | helper.py:137-182 | before propagation the initialiser's store matches nothing; once its parameter is typed `EFI_SYSTEM_TABLE*` the same store is the `gST` match |
| GlobalResolver.PropagationRevealsSystemTable | helper.py:212-225 | a `gST` store in a called initialiser is found only because phase A runs first |
| ProtocolResolver.SelectIndices | helper.py:290-296 | each member suffix selects its argument positions (0,2), (1,2) or (1,3), and any other callee is skipped |
| ProtocolResolver.SuffixesExclusive | helper.py:291-296 | no callee text ends with two of the three suffixes, so the order of the tests does not matter |
| ProtocolResolver.BareMemberNameIgnored | helper.py:291-292 | the suffix includes `->`: a bare member name does not match |
| ProtocolResolver.DeriveName | helper.py:243-244 | a name not ending in `Guid` is kept; one ending in it loses at least those four letters |
| ProtocolResolver.DeriveNameStripsSuffix | helper.py:243-244 | when `Guid` occurs only at the end, the variable name is the GUID name without it |
| ProtocolResolver.DeriveNameRemovesInnerGuid | helper.py:244 | every occurrence of `Guid` is removed, not only the suffix |
| ProtocolResolver.NameProtoFromGuid | helper.py:227-246 | raises exactly when the GUID's address is unmapped; names the variable exactly when all 16 bytes are mapped and name a known GUID; the name is the derived GUID name |
| ProtocolResolver.NameProtocolVar | helper.py:248-269 | fewer arguments than the protocol position skips; a GUID or protocol argument that is not a constant pointer skips without an exception; exactly that many arguments, with a constant GUID pointer, raises; both pointers constant hands over to `NameProtoFromGuid`; the only exceptions are the out-of-range index and the unmapped GUID |
| ProtocolResolver.TwoArgumentLocateProtocolRaises | helper.py:258-269 | a two-argument `LocateProtocol` call with constant pointers raises instead of being skipped |
| ProtocolResolver.ComputedGuidSkipped | helper.py:263-264 | a `LocateProtocol` call whose GUID argument is a variable is skipped, with no name and no exception, whatever the knowledge base and memory hold |
| ProtocolResolver.ProtocolCallSite | helper.py:284-296 | only calls through a structure field whose text has one of the suffixes are examined, with that suffix's argument positions |
| ProtocolResolver.RunSteps | helper.py:282-296 | a walk over instructions reports a failure exactly when some instruction raises |
| ProtocolResolver.RunStepsSound | helper.py:282-296 | every annotation comes from an instruction with no exception before it |
| ProtocolResolver.RunStepsComplete | helper.py:282-296 | every instruction that names a variable before the first exception contributes its annotation |
| ProtocolResolver.RunStepsFailure | helper.py:282-296 | a reported failure is the one of the first instruction that raises |
| ProtocolResolver.ExaminedAppend | helper.py:276 | the instructions examined for a list of globals are those of each global in turn |
| ProtocolResolver.ExaminedSound | helper.py:276-283 | every examined instruction lies in the first function containing a code reference to a remembered global |
| ProtocolResolver.CallSiteNamesKnownGuid | helper.py:284-296 | a call site names a variable only with the derived name of a known GUID whose 16 bytes are mapped |
| ProtocolResolver.NameProtocolVarsKnown | helper.py:271-296 | every name the pass reports is the derived name of a known GUID present in memory |
| ProtocolResolver.NameProtocolVars | helper.py:271-296 | pass 3 does nothing without remembered globals; its annotations are untyped symbols from examined call sites; it fails exactly when some examined call site raises; every call site before the first exception that names a variable is reported |
| ProtocolResolver.FooProtocolName | helper.py:243-244 | `FooProtocolGuid` names the variable `FooProtocol` |
| ProtocolResolver.LocateProtocolNamesGlobal | helper.py:284-292 | a `gBS->LocateProtocol` call with a known GUID pointer names the interface global after the GUID |
| Pipeline.SetEntryPointPrototype | helper.py:61-69 | a TE image is left alone; otherwise it raises exactly when the entry function is missing (`NoFunctionAt`) or has fewer than two parameters (`NoParameter`), and else sets the first two parameters to `ImageHandle` and `SystemTable` and changes nothing else |
| Pipeline.EntryPrototypeIdempotent | helper.py:61-69 | applying the prototype again changes nothing |
| Pipeline.GlobalAnnotationsFromStores | helper.py:164-181 | an annotation of pass 2 exists exactly when some function stores a core-typed variable through a constant pointer; it sits at that address, is named by the type's row, and carries the variable's type |
| Pipeline.Run | helper.py:298-312 | a prototype exception stops the run before any pass; otherwise the GUID pass gives the scan of the image as given, a phase A exception stops the rest, every remembered address carries a `gBS` symbol, the protocol pass runs on the re-analysed host over the remembered globals, and every protocol name comes from a known GUID in the image's bytes |
| Pipeline.MissingEntryStopsRun | helper.py:61-69 | a non-TE image with no function at its entry point reports nothing and stops with `NoFunctionAt` |
| Pipeline.PrototypeTypesSampleEntry | helper.py:61-69 | the prototype turns an untyped two-parameter entry function into the one the phase A sample starts from |
| Pipeline.UntypedEntryRevealsSystemTable | helper.py:298-312 | an image whose entry parameters are untyped still gets its `gST` global, because the prototype runs before pass 2 |
| Pipeline.BootServicesSymbol | helper.py:166-168 | a match remembered as BootServices is always the `gBS` symbol |
| Pipeline.BootServicesNamed | helper.py:166-168 | every address on the BootServices list carries a `gBS` annotation |
| Pipeline.RunFromTable | helper.py:18-24 | the plugin stops before any pass exactly when the knowledge base fails to load; otherwise it runs on the loaded knowledge base |

## Left out

- `_fix_segments` and `_import_types_from_headers` are host mutations:
  segment flags and header type libraries. The host is given as it stands
  after them, and their effect on the lifted IL (calls through global
  function pointers shown as calls, say) is folded into that host's
  instructions. Their own failures (a missing type library file, say) are
  not modelled.
- Pipeline.SetEntryPointPrototype: with one parameter, Python has already
  set parameter 0 before `parameter_vars[1]` raises. The model reports only
  the exception, and the run stops with it.
- Reading `guids.csv` (the file path and CSV tokenisation) is left out. The
  table is given as its list of (GUID text, name) rows.
- `BackgroundTaskThread`, progress messages and `print` output (including the
  GUID text printed at line 96) are left out. They do not change what is
  annotated.
- `update_analysis_and_wait` is a parameter of `Pipeline.Run`. It returns the
  functions and code references the re-analysis leaves. The bytes, segments
  and entry point stay the image's own.
- Applying annotations to the host is not modelled. The passes return them.
- The edited parameters (the entry prototype of helper.py:61-69 and the
  types phase A copies at helper.py:208-210) are not part of a `Report`. They
  are observable in `Globals.functions` and in the host handed to the
  re-analysis.
  Pass 3 sees pass 1 and pass 2 only through the re-analysed host.
- Guid.Parse: does not accept the extras that Python's `int(..., 16)` allows
  inside the 32 characters: a sign, surrounding whitespace, `_` separators, a
  `0x`/`0X` prefix (e.g. `0x` followed by 30 hex digits), and non-ASCII
  Unicode decimal digits. Such a text is rejected, not converted, so a table
  holding one fails to load where Python would load it.
- GlobalResolver.PropagateVars: when a call is short of arguments, Python has
  already updated the parameters before the missing one. The model reports
  only the exception, and the run stops with it.
- The host's `BinaryReader.read` is assumed to return `None` only when the
  start address is unmapped, and otherwise the mapped bytes from the start up
  to the first gap or the requested length (`Ir.Read`). `NameProtoFromGuid`
  raising exactly when the GUID's address is unmapped follows from that
  assumption. If the host returned `None` for any incomplete read,
  helper.py:236 would also raise for a GUID that runs off the end of mapped
  memory.
- Binary Ninja variable identity is simplified: a variable is a position in
  its function's table, and renaming a parameter does not break references to
  it.
- Instructions are the top-level HLIL instructions of each block, as the
  plugin iterates them. Operations other than those the plugin inspects are
  `Other`, and nested expressions are not searched, as in the plugin.
- `get_function_at` and `get_functions_at` mean a function starting at the
  address. A GUID inside a function body is still annotated.
- `_name_proto_from_guid` removes every `Guid` in the name, not only the
  trailing one (`str.replace`). The model does the same.
- `_name_protocol_var` compares the argument count with `<`, so a call with
  exactly the protocol position's number of arguments passes the guard, and
  indexing raises. The model raises there too.

# Verified model of the zeldar debug overlay

zeldar draws an ImGui overlay inside a running game. Four pieces of its own code carry state,
and this project models them in Dafny 4.11 and proves what they promise.

* **Rendering** (`Scissor`, `DrawData`, `GpuReplay`, `VisibleDraws`, `Pools`, `Buffers`, `RenderBackend`).
  `renderDrawData` copies all ImGui command lists into one vertex and one index buffer, records
  draws with rebased offsets, skips redundant texture binds, scales clip rectangles, and submits.
  `GpuReplay` gives the recorded stream a meaning: an interpreter that fetches indices and vertices
  from byte memory as it stands at submission, inside the bound vertex range. The main result
  (`FlatteningPreservesMeaning`, and through it the contract of `RenderDrawData`) is that this replay
  draws what the lists ask for. The texture cache starts at handle 0 without a bind, so leading draws
  with handle 0 show whatever was bound before the frame; the exact condition is proved. `VisibleDraws`
  says the same of the draw data alone: one draw for every command with a non-empty rectangle.
* **Shader packer** (`Bits`, `Arithmetic`, `Alignment`, `Bytes`, `ShaderLayout`, `ShaderPacker`).
  `CreateShaderBinary` sizes one allocation, copies control and data segments behind a header and
  `BinaryHeader` reads the header back. The cursor is a u32 and is modelled with its truncation.
  Exact conditions are proved for three things the code does not always do: the sizing pass is
  enough for every list of n GPU-code sections if and only if n <= 15; the result is the packed
  binary if and only if every data segment starts below 2^32; the header decodes to the sections'
  offsets, given at least one GPU-code section, if and only if glslc returned exactly two sections. For
  each there is a lemma with a failing input (`OverfullOverflows`, `CursorWraps`,
  `ReflectionSectionBreaksHeader`).
* **Input** (`Hid`, `Signals`, `Input`, `InputRuns`, `ImGuiKeys`, `KeyMeaning`, `ImGuiInput`, `EventLaw`, `KeySync`,
  `TexIds`). `InputHelper` keeps the previous and current samples; its edges, toggle and consumers are
  followed over whole runs.
  `updatePadState` has two callers: `newFrame`, which forwards edges to ImGui, and the controller hook
  in `Camera.cpp`, which does not. So ImGui's view of a key can drift, and `InSyncIffSwallowedEven`
  says exactly when it agrees with the hardware, for any mapping tables in which a key has one row;
  the tables in use are proved to give each of the 126 keys they name one row, and that row the flag
  of hid.h with the key's name. Their 127th row names `ImGuiKey_None` and is proved to move nothing.
  `FrameSends` characterises the events of one frame without the loops.
* **Packed flags** (`BitFlags`). `BitFlagSet` refines a set of naturals; the input modules work on
  that set.

The classes (`Input.InputHelper`, `ImGuiInput.ImGuiIO`, `TexIds.TexIdSelector`, `Buffers.MemoryBuffer`,
`Buffers.GrowingBuffer`, `RenderBackend.Backend`) update their fields as the C++ does, and each method
is proved against a function of the old state; the lemmas are about those functions.

## Assumptions about code outside the repository

* ImGui: the totals of an `ImDrawData` are the sums over its lists (`TotalsMatch`); for the meaning of
  the draws, a command's indices lie in its list and name vertices of it (`WellFormed`). An `ImDrawVert`
  is 20 bytes and an `ImDrawIdx` two, as the vertex format and index type of the backend say. A key is
  as its latest event left it, and ImGui ignores events for `ImGuiKey_None` (`DownAfter` says both).
* glslc: `controlSize + dataSize <= common.size` for GPU-code sections, and the bytes a header points
  at belong to the output. `headerInfo` has four entries; section i needs `numSections + i < 4`.
* Allocation returns a fresh buffer of the requested size (the body of `glslc_Alloc` is commented out).
  How a memory pool or buffer is set up, and what a failed pool reports as its size, are parameters.
* What the pads, keyboard and mouse return during one update is a parameter (`Sample`).

Run `dafny verify dfyconfig.toml` in this directory.

## Model

| member | source | states |
|---|---|---|
| GpuReplay.FlatteningPreservesMeaning | src/imgui_backend/imgui_impl_nvn.cpp:626-685 | Against any memory that starts with the lists' bytes, the recorded stream draws the lists' commands in order, each vertex from its own list and only dropped commands missing, except that leading draws with handle 0 show the texture bound before; it draws exactly what was asked if and only if there is no such draw or 0 was bound; binds equal handle changes |
| GpuReplay.ElisionRefinesNaive | src/imgui_backend/imgui_impl_nvn.cpp:627-677 | The recorded stream draws exactly what the stream that binds every texture draws, if and only if the frame does not open with an unbound handle of 0 |
| GpuReplay.NaiveStreamDraws | src/imgui_backend/imgui_impl_nvn.cpp:665-676 | Binding every command's texture draws what is asked, whatever was bound before |
| GpuReplay.FetchedVertices | src/imgui_backend/imgui_impl_nvn.cpp:674-676 | A rebased draw over the shared buffers fetches vtx[VtxOffset + idx[IdxOffset + k]] of the command's own list for every k, inside the bound vertex range |
| GpuReplay.AmbientHarmlessIff | src/imgui_backend/imgui_impl_nvn.cpp:627-671 | Starting the handle cache at 0 is invisible exactly when nothing is drawn, the first drawn handle is not 0, or 0 was bound already |
| GpuReplay.OpeningZeroShowsOldTexture | src/imgui_backend/imgui_impl_nvn.cpp:627-671 | A frame of one list and one draw with handle 0, over any other bound texture, shows that texture instead of its own |
| DrawData.ListInFlat | src/imgui_backend/imgui_impl_nvn.cpp:630-681 | After all copies, each list's vertex and index bytes lie at the prefix sums of the earlier list sizes, untouched by later copies |
| DrawData.IndexLittleEndian | src/imgui_backend/imgui_impl_nvn.cpp:643 | A copied 16-bit index lies in two bytes, low byte first |
| RenderBackend.Backend.RecordCommands | src/imgui_backend/imgui_impl_nvn.cpp:645-677 | One list's commands, with the cached handle carried through |
| RenderBackend.Backend.FlattenLists | src/imgui_backend/imgui_impl_nvn.cpp:626-681 | Both buffers hold the concatenation of all lists' bytes and are otherwise unchanged; the commands are those of the recorder |
| RenderBackend.SubmissionDrawsWhatWasAsked | src/imgui_backend/imgui_impl_nvn.cpp:683-685 | For every texture bound before, a submission with these commands and this memory draws what the lists ask for, except that leading draws with handle 0 show that earlier texture |
| VisibleDraws.AskedIsVisible | src/imgui_backend/imgui_impl_nvn.cpp:645-677 | On a display with an area, what is asked for is one draw for every command whose own rectangle is not empty, in order, with its texture, its box on the display and the vertices of its list |
| VisibleDraws.ReplayShowsVisible | src/imgui_backend/imgui_impl_nvn.cpp:626-685 | Replaying the recorded stream shows exactly those draws, each with its own texture unless every handle so far is 0, when the texture bound before shows |
| RenderBackend.Backend.RenderDrawData | src/imgui_backend/imgui_impl_nvn.cpp:551-686 | A frame reaches the buffers if and only if its data is valid, has a list, and the backend is initialized: then each buffer gets one request of the frame's bytes, and otherwise nothing changes. If both buffers are usable after that, exactly one submission is added; replayed on a display with an area, it draws exactly the commands with a non-empty rectangle, except that leading draws with handle 0 show the texture bound before |
| Pools.CapacityClosedForm | src/imgui_backend/imgui_impl_nvn.cpp:580-605 | With working set-ups, the pool size after any frames is the largest request so far in whole pages |
| Pools.ServingGrows | src/imgui_backend/imgui_impl_nvn.cpp:580-605 | The pool covers the current frame, never shrinks, and is replaced exactly when it strictly grows |
| Pools.KeptIff | src/imgui_backend/imgui_impl_nvn.cpp:580-605 | From any pool, working or not, further frames allocate nothing if and only if none asks for more than the pool's size; then the pool is the same |
| Pools.FailureSticks | src/imgui_backend/imgui_impl_nvn.cpp:581-611 | A buffer whose set-up failed is kept, unusable, for as long as no frame asks for more than it reports |
| Pools.LastReplacementDecides | src/imgui_backend/MemoryBuffer.cpp:4-31 | Whatever the set-ups did, the buffer is that of the last request that replaced it: usable if and only if both its pool and its buffer came up, in whole pages unless the pool failed, and every later request fits |
| Buffers.MemoryBuffer.constructor | src/imgui_backend/MemoryBuffer.cpp:4-31 | A zeroed allocation in whole pages, ready exactly when pool and buffer initialise |
| Buffers.GrowingBuffer.Resize | src/imgui_backend/imgui_impl_nvn.cpp:581-591 | Keep or replace; a replaced buffer is finalised and retired, a kept one is untouched |
| Buffers.GrowingBuffer.Capacity | src/imgui_backend/imgui_impl_nvn.cpp:580-605 | At any time one buffer is live, as large as the largest request in whole pages, and every replaced one was finalised exactly once |
| Scissor.SkipIff | src/imgui_backend/imgui_impl_nvn.cpp:649-661 | The clipper in use drops exactly the commands whose own clip rectangle is empty, if and only if the display has positive width and height |
| Scissor.DroppedIff | src/imgui_backend/imgui_impl_nvn.cpp:649-661 | For any display, a command is dropped exactly when an extent of its rectangle times the display's is not positive |
| Scissor.DrawnBox | src/imgui_backend/imgui_impl_nvn.cpp:649-663 | The box of any drawn command is the near corner and the extent of its rectangle, carried from 1280 x 720 to the display, each truncated towards zero |
| Scissor.FarEdgeExact | src/imgui_backend/imgui_impl_nvn.cpp:656-663 | The end of the truncated box on one axis, exactly, for non-negative and for negative near edges |
| Scissor.BoxAccuracy | src/imgui_backend/imgui_impl_nvn.cpp:649-663 | For non-negative near corners the box ends at the floor of the scaled far edge or one pixel before it |
| ShaderPacker.CreateShaderBinary | src/imgui_backend/ImguiShaderCompiler.cpp:45-105 | All writes stay in an allocation of BinarySize bytes; slots i and numSections + i of the header hold section i's (truncated) offsets; the result is the packed binary if and only if no offset is lost to the u32 cursor, and then each section's control and data are, byte for byte, what its header points at in the output |
| Bytes.LittleEndian | src/imgui_backend/ImguiShaderCompiler.cpp:94 | The header's words lie in memory least significant byte first, as the platform stores them |
| ShaderPacker.SmallSectionsExact | src/imgui_backend/ImguiShaderCompiler.cpp:49-92 | With at most 15 GPU-code sections, an allocation of at most 2^32 bytes guarantees that no offset is lost |
| ShaderPacker.CursorWraps | src/imgui_backend/ImguiShaderCompiler.cpp:64-92 | Two stages with 2 GiB of control each meet every requirement, and the truncated cursor puts section 0's data inside section 0's control |
| ShaderPacker.PackThenUnpack | src/imgui_backend/ImguiShaderCompiler.h:13-26 | For two GPU-code sections, BinaryHeader's offsets lead to exactly the bytes that dataOffset + controlOffset and dataOffset + codeOffset of section 0 (fragment) and section 1 (vertex) lead to in the output |
| ShaderPacker.HeaderDecodesIffTwoSections | src/imgui_backend/ImguiShaderCompiler.h:13-26 | With at least one GPU-code section, BinaryHeader decodes every GPU section's offsets if and only if glslc returned exactly two sections |
| ShaderPacker.HeaderIndicesIff | src/imgui_backend/ImguiShaderCompiler.cpp:65-90 | headerInfo is indexed inside its four entries exactly for at most two sections, for three of which only the first is GPU code, or for no GPU code |
| ShaderPacker.TwoStagesFitIff | src/imgui_backend/ImguiShaderCompiler.cpp:65-90 | With two GPU-code sections, headerInfo is indexed inside its entries if and only if glslc returned nothing else |
| ShaderPacker.ReflectionSectionBreaksHeader | src/imgui_backend/ImguiShaderCompiler.cpp:47-92 | Two stages followed by a reflection section: one index leaves the table, and the entries inside it are decoded wrongly |
| ShaderPacker.PackedUnique | src/imgui_backend/ImguiShaderCompiler.cpp:59-94 | Header, segments and zeros elsewhere determine every byte of the binary |
| ShaderPacker.SegmentSurvives | src/imgui_backend/ImguiShaderCompiler.cpp:67-92 | After both passes every segment still holds the bytes of the output that its header points at |
| ShaderPacker.OffsetsExactIff | src/imgui_backend/ImguiShaderCompiler.cpp:64-92 | The u32 cursor reports every segment's true start exactly when every data segment starts below 2^32 |
| ShaderPacker.ComputeBinarySize | src/imgui_backend/ImguiShaderCompiler.cpp:49-57 | The running align-up computes the sum of the individually aligned sizes, plus a page, in whole pages |
| ShaderPacker.PlaceControlSections | src/imgui_backend/ImguiShaderCompiler.cpp:64-78 | The control pass: image, header table and truncated cursor; with no offset lost, every section's control bytes of the output lie at its control offset |
| ShaderPacker.PlaceDataSections | src/imgui_backend/ImguiShaderCompiler.cpp:80-92 | The data pass: image and header table; with no offset lost, every control and every data segment is in place |
| ShaderLayout.AlwaysFitsIff | src/imgui_backend/ImguiShaderCompiler.cpp:49-92 | Every well-formed list of n GPU-code sections is written inside the computed size if and only if n <= 15 |
| ShaderLayout.PackerFits | src/imgui_backend/ImguiShaderCompiler.cpp:49-92 | With at most 15 GPU-code sections the cursor never passes the computed size in either pass |
| ShaderLayout.SegmentsInOrder | src/imgui_backend/ImguiShaderCompiler.cpp:64-92 | Segments follow one another behind the header without overlap, all control before all data, starts strictly growing past non-empty ones |
| ShaderLayout.SegmentAlignment | src/imgui_backend/ImguiShaderCompiler.cpp:64-92 | A segment starts on a 0x100 boundary if and only if it is not the first control segment, which starts at 0x10 |
| ShaderLayout.NoSectorWasted | src/imgui_backend/ImguiShaderCompiler.cpp:64-92 | A segment starts less than 0x100 bytes behind the one placed before it |
| ShaderLayout.BinarySizeOrderIndependent | src/imgui_backend/ImguiShaderCompiler.cpp:49-57 | Permuted sections need the same allocation |
| ShaderLayout.BinarySizeShape | src/imgui_backend/ImguiShaderCompiler.cpp:49-57 | Sections that are not GPU code do not count; the size is a positive number of whole pages |
| ShaderLayout.BinarySizeBounds | src/imgui_backend/ImguiShaderCompiler.cpp:49-57 | The allocation covers the declared sizes and a page, and exceeds them by less than a sector per GPU-code section and a further page |
| Alignment.SectorAndPageAreTheMacro | src/types.h:39 | Below the word size, the mask expression of ALIGN_UP with 0x100 and 0x1000 is the rounding used in the model |
| Alignment.AlignUpLeast | src/types.h:39 | Rounding up yields the least multiple not below the argument |
| Input.Sample.Chosen | src/helpers/InputHelper.cpp:86-98 | The pad that is read is that of the first recognised style |
| Input.InputHelper.constructor | src/helpers/InputHelper.cpp:21-32 | The statics start zeroed, with input toggled off |
| Input.InputHelper.TryGetContState | src/helpers/InputHelper.cpp:80-104 | True and the state of the pad of the first set style for a recognised style, false and no change otherwise; never left reading |
| Input.InputHelper.UpdatePadState | src/helpers/InputHelper.cpp:65-78 | After one sample: previous states are the old current ones, keyboard and mouse are the sample's, the pad is the chosen one or the old, and the toggle flips exactly for ZL held with a rising edge on ZR |
| Input.InputHelper.GetNpadState | src/program/imgui_nvn.cpp:91-98 | Reads are blanked while toggled on, unless the helper itself is reading |
| InputRuns.EdgeLaw | src/helpers/InputHelper.cpp:106-140 | From any state, for every button, key and mouse button: reported edges alternate, each flips the level, and hold is the telescoped sum of presses and releases |
| InputRuns.EdgesFromStart | src/helpers/InputHelper.cpp:106-140 | From the zeroed statics: press first, strict alternation, presses minus releases is the hold |
| InputRuns.StutteringInvariance | src/helpers/InputHelper.cpp:65-116 | Deleting every frame with an unrecognised style changes neither the controller events nor the toggle |
| InputRuns.RunHoldsLastSamples | src/helpers/InputHelper.cpp:65-78 | After any run the current pad, keyboard and mouse states are those read last, whole, and the previous ones those read last before the final frame |
| InputRuns.ToggleIsParity | src/helpers/InputHelper.cpp:75-77 | The toggle is the parity of the frames with ZL held and a rising edge on ZR |
| InputRuns.ToggleBound | src/helpers/InputHelper.cpp:75-77 | n frames toggle at most (n + 1) / 2 times |
| InputRuns.TogglesNotAdjacent | src/helpers/InputHelper.cpp:75-77 | No two consecutive frames both toggle |
| InputRuns.ToggleBoundAttained | src/helpers/InputHelper.cpp:75-77 | For every n some run of n frames toggles exactly (n + 1) / 2 times |
| KeySync.HelperFollowsRun | src/program/pe/DbgGui/Windows/Camera.cpp:158-161 | However hook and frames interleave, the helper goes through one run of samples: all of the hook's, and a frame's while toggled on |
| KeySync.SystemToggleLaw | src/program/imgui_nvn.cpp:170-174 | Over n ticks of both callers the toggle is the parity of the flips among the samples taken, at most (n + 1) / 2 |
| KeySync.GameReadsBlankIff | src/program/imgui_nvn.cpp:91-98 | After any run of both callers from the start, the game's pad read loses its buttons exactly when the number of flips among the samples taken is odd |
| ImGuiInput.ImGuiIO.UpdateInput | src/imgui_backend/imgui_impl_nvn.cpp:461-500 | The events sent in one frame (EventLaw.FrameSends says which), the mouse position of the current sample, and that nothing changes while toggled off |
| ImGuiInput.FrameOutcome | src/imgui_backend/imgui_impl_nvn.cpp:469-499 | One frame leaves a key with a row of its own at the level its edge announces, or as it was |
| ImGuiKeys.TablesNumbered | src/imgui_backend/imgui_hid_mappings.h:6-140 | The 127 rows of the three mapping tables name 127 different enumerators |
| KeyMeaning.TablesAgree | src/imgui_backend/imgui_hid_mappings.h:6-140 | Every row of the three tables follows the hardware flag that its ImGui enumerator stands for by name, under that flag's code in hid.h |
| KeyMeaning.FlagOfInjective | src/nn/hid.h:14-247 | No two keys or buttons stand for the same flag |
| KeyMeaning.ButtonsInUse | src/nn/hid.h:14-30 | ZL, ZR, Left and Right of the toggle and the texture selector are the flags behind L2, R2 and the D-pad's left and right keys |
| EventLaw.FrameSends | src/imgui_backend/imgui_impl_nvn.cpp:461-500 | One frame sends, while toggled on, a level event for exactly the named keys and buttons whose own flag has an edge and the wheel's deltas if one is positive; nothing else, nothing twice, in the order of the tables with the wheel behind the pad |
| EventLaw.SingleFlag | src/imgui_backend/imgui_impl_nvn.cpp:469-499 | A single flag that changes is told to ImGui once, as its own key, and no other key or button is |
| ImGuiInput.EveryRowFeeds | src/imgui_backend/imgui_hid_mappings.h:6-140 | Each of the 126 rows that name a key is the only row with its target |
| ImGuiInput.NoKeyNeverMoves | src/imgui_backend/imgui_hid_mappings.h:34 | Whatever events are sent, including those of the ImGuiKey_None row, the level of ImGuiKey_None stays |
| KeySync.InSyncIffSwallowedEven | src/imgui_backend/imgui_impl_nvn.cpp:461-515 | Over any run of both callers, ImGui agrees with the hardware on a key exactly when the edges swallowed since the last forwarded one are even in number |
| KeySync.EveryMappedKey | src/imgui_backend/imgui_hid_mappings.h:6-140 | The same for each of the 126 keys and buttons that hid.h has a flag for, and that flag, with the tables in use; ImGuiKey_None never moves |
| KeySync.PresentSendsChanges | src/imgui_backend/imgui_impl_nvn.cpp:502-515 | A forwarded frame sends a level exactly for the named keys whose own flag differs from the sample before, and the level sent is the flag's new one |
| KeySync.StretchSync | src/imgui_backend/imgui_impl_nvn.cpp:461-515 | In a stretch of forwarded frames, ImGui agrees at the end if and only if it agreed at the start or an edge of the key was delivered |
| KeySync.DoubledSamplingIsDeaf | src/program/pe/DbgGui/Windows/Camera.cpp:158-161 | If every frame repeats the sample the hook took just before, no key or mouse-button event is ever sent, only wheel events |
| KeySync.DoubledSamplingKeepsLevels | src/program/pe/DbgGui/Windows/Camera.cpp:158-161 | So in such a run every level ImGui holds stays what it was |
| KeySync.PressUnderTheHookIsLost | src/program/pe/DbgGui/Windows/Camera.cpp:158-161 | Toggled on and in agreement, button A pressed under the hook and still held in the next frame leaves ImGui's face-down key up |
| KeySync.NewFrame | src/imgui_backend/imgui_impl_nvn.cpp:502-515 | Sample, then forward the edges of that sample; ImGui's mouse position is that sample's |
| KeySync.ProcDraw | src/program/imgui_nvn.cpp:170-174 | Nothing while toggled off; otherwise one forwarded frame, with that sample's mouse position |
| KeySync.LayerCalcCallback | src/program/pe/DbgGui/Windows/Camera.cpp:158-161 | A sample without forwarding |
| TexIds.SelectorClosedForm | src/imgui_backend/imgui_impl_nvn.cpp:57-98 | For every run from the start: the id from the steps Left and Right have earned, and each counter as the current hold's length minus one, or zero |
| TexIds.OneHold | src/imgui_backend/imgui_impl_nvn.cpp:64-75 | Holding n frames from a fresh press earns 1 + max(0, n - 31) steps |
| TexIds.AutoRepeat | src/imgui_backend/imgui_impl_nvn.cpp:64-88 | Left alone lowers the id by that many steps, Right alone raises it, both from the same frame leave it |
| TexIds.TexIdSelector.Next | src/imgui_backend/imgui_impl_nvn.cpp:57-98 | One call updates the three statics and returns the id |
| BitFlags.IsBitSetIsBitOfNumber | src/nn/util.h:85-88 | isBitSet(i) is bit i of the number the words spell in base 2^32 for up to 32 flags and base 2^64 above |
| BitFlags.EqualWordsIffSameMembers | src/nn/util.h:78-89 | Two flag sets have equal words if and only if they stand for the same set of naturals |
| BitFlags.FlagsDetermineWordsIff | src/nn/util.h:80-88 | Agreement on all declared flags forces equal words if and only if size is a multiple of storageBits |
| BitFlags.StorageCountExact | src/nn/util.h:80-83 | Every index below size has a word, and no word is wholly unused |
| BitFlags.EmptyHasNoMembers | src/helpers/InputHelper.cpp:21-28 | Zero-initialised flags stand for the empty set |

## Left out

- Input.InputHelper: holds flag sets as the sets of naturals that BitFlags shows the words to stand for; samples leave out analog sticks and attributes, which nothing here reads, and the port number.
- ImGuiInput.ImGuiIO: ImGui's own event queue and its handling of duplicate events are not part of this model; an event takes effect when it is added.
- TexIds.TexIdSelector: the id and counters are unbounded integers, so 32-bit overflow of curId is not modelled; the closed form takes one call behind every update.
- ShaderPacker.PackThenUnpack: which shader stage glslc puts first is outside the repository; section 0 is the fragment stage because BinaryHeader reads it so.
- ShaderPacker.CreateShaderBinary: inputs whose header index falls outside headerInfo (HeaderIndicesIff says which) are excluded, as the original then writes outside a local array; the outputFile branch is file I/O.
- RenderBackend.Backend.RenderDrawData: the test-shader branch (no code sets isUseTestShader), program, uniform and render-state commands, command user callbacks and float rounding of clip coordinates are left out; sizes are unbounded integers.
- RenderBackend.Backend.DrawFrame: the GPU reads memory at submission; racing with the next frame's copies is not modelled.
- ALIGN_UP is used below the 64-bit wrap-around only.
- DeltaTime in newFrame: a difference of clock readings with no further use.
- InitBackend, setupFont, setupShaders, MemoryPoolMaker: constant configuration and driver calls.
- The NVN and SDK headers, hook and patch library, heap creation, file helpers and scripts: declarations, foreign code and I/O.
- Camera movement in Camera.cpp: floating-point vector code of a foreign math library.

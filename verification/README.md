# A verified model of the kernel's compositor, USB host driver and memory management

The kernel draws a stack of layers with a damage-driven compositor, drives an xHCI controller through
rings in shared memory, hands out page frames and USB memory, scans the PCI bus and prints to a
console. This project models these parts and proves what each of them is for:

- **Compositor** (`Geometry`, `Composition`, `StackEdits`, `Bytes`, `FrameBuffers`, `ColourKeys`,
  `Seqs`, `Layers`, `NestedComposition`, `Painters`, `Drawings`, `Scenes`, `Depictions`, `Sessions`,
  `Desktops`, `StaleScreens`, `OpenPainters`, `StaleAreas`). The invariant is that repainting every layer bottom to top would change nothing, for every manager in a tree of groups of any depth, that the
  front and back buffers are equal, and that reserved bytes are zero. Damage redraws, moves, paints,
  insertions and raises keep it over every run; hiding, lowering and changing a transparent colour
  keep it exactly under stated conditions, and runs that use them know which managers are fresh.
  While painters are open it holds wherever none of their unfinished pixels is seen.
  A run is refined by a scene, a plain value: a script of commands tells which managers may be stale
  and, when none is, every pixel of the screen.
  Pixels are bytes in arrays with scan-line padding; the clipped and colour-keyed copies are proved
  down to those bytes.
- **Consoles** (`ConsoleText`, `Consoles`). The console that redraws characters and the one that
  scrolls pixels both show the last 25 rows of the text, laid out by an independent definition.
- **Rings and bring-up** (`Trbs`, `RingProtocol`, `RingBound`, `EventRingProtocol`, `Rings`, `Ports`,
  `CommandFlow`, `CommandRing`, `PortDriver`). The controller is an environment that interleaves its
  word reads with the driver's word writes (sections 4.3, 4.9.2 to 4.9.4 and 6.4.4.1 of the xHCI
  specification). `Ring::Push` has no full check: that it stays within its bound follows from the
  bring-up protocol, and `CommandRing` is that join.
- **Control transfers** (`ArrayMaps`, `ControlTransfers`, `ControlPipes`, `TransferRing`,
  `TransferDeadlock`). Completions are led back to their requests through the setup map, over every
  interleaving of word accesses, calls and events, if and only if at most ten transfers are admitted
  at once. The ring stays a queue if and only if at most nine are; with ten it can stop forever.
- **Memory** (`Arithmetic`, `Bits`, `Frames`, `MemoryManager`, `MemoryMaps`, `Heaps`, `UsbMemory`). First-fit over a
  bitmap of 64-bit words, its initialisation from the UEFI memory map, the heap on top of it, and the
  bump allocator for USB memory.
- **PCI and descriptors** (`PciScan`, `PciReach`, `PciSpace`, `Descriptors`, `UsbInitialize`). The
  recursive scan against a depth-first enumeration, against reachability and against the headers of a
  machine, and the descriptor walk against serialisation.

Code that works in place is modelled by classes whose methods are proved against specification
functions; the properties are lemmas about those functions.

Where code and expectation differ, the model follows the code:

- `LayerManager::hide`, lowering a layer under an opaque cover and `set_transparent_color` do not
  repaint (`kernel/graphics/layer_manager.cpp:125-162`, `kernel/graphics/layer.cpp:22-24`): exact
  conditions in `StackEdits.HideExact`, `StackEdits.LowerExact` and `StackEdits.RekeyExact`, failing
  inputs in `StaleScreens`.
- `Painter::draw_rectangle` damages the rectangle, but a border that is empty in one direction only
  is written outside it: `Painters.BorderInsideIff`, `Painters.BorderEscapes`.
- `AllocMem` compares a 64-bit sum that can wrap: `UsbMemory.InPoolIff`. The promise that a block
  crosses no boundary is made for sizes up to the boundary, as `kernel/usb/interface/usb/memory.hpp:16`
  says.
- `InitializePhase2` takes the announced number of endpoints from wherever they follow:
  `UsbInitialize.RecordsOwnIff`. If too few follow it reads through a null pointer, if more than
  sixteen do it writes past its table: `UsbInitialize.Device.InitializePhase2` says exactly when.
- `scan_all_bus` does not scan bus 0 below a multi-function host bridge
  (`kernel/pci.cpp:166-174`): `PciReach.BusZeroListedIff`, `PciReach.BusZeroCanBeMissed`.
- One transfer too many overwrites a setup block that is still needed: `ControlTransfers.Overrun`. Ten
  at once, all of three blocks, can already make driver and controller wait for each other forever,
  because the status block behind a reported data block may be unread: `TransferDeadlock.TenCanDeadlock`.
- `sbrk` checks only the end of the heap: `Heaps.StaysInHeapIff`.

## Model

| member | source | states |
|---|---|---|
| `Geometry.MergeAllIsLeast` | kernel/graphics/primitives.hpp:79-102 | a rectangle includes the merge of a list exactly if it includes every member |
| `Geometry.OffsetCommutesWithMerge` | kernel/graphics/primitives.hpp:75-85 | translating damage towards the parent and merging it commute |
| `FrameBuffers.AdjustCoords` | kernel/graphics/frame_buffer.cpp:8-34 | the clipped rectangle is exactly the set of offsets whose source and destination pixels are both in bounds, for all positions and sizes, negative ones included |
| `FrameBuffers.FrameBuffer.CopyFrom` | kernel/graphics/frame_buffer.cpp:127-171 | a copy is the clipped blit of the requested rectangle, padding cells keep their bytes, and nothing outside either buffer is touched; differing formats are refused |
| `FrameBuffers.CopyRectCells` | kernel/graphics/frame_buffer.cpp:127-171 | cell by cell: inside the rectangle the source pixel unless it is the key, elsewhere (padding included) the old bytes |
| `FrameBuffers.BlitIsClipped` | kernel/graphics/frame_buffer.cpp:8-34 | a copy of the clipped rectangle is the picture of the unclipped request |
| `Bytes.CopyTransparent` | kernel/graphics/frame_buffer.cpp:36-60 | the memcmp/memcpy loop computes the row-by-row keyed copy |
| `Bytes.CopyTransparentWords` | kernel/graphics/frame_buffer.cpp:64-91 | the 32-bit-word loop computes the very same bytes as the generic one at four bytes per pixel |
| `Bytes.LoadWordIsInjective` | kernel/graphics/frame_buffer.cpp:64-91 | comparing words is comparing the four bytes |
| `Bytes.CopyOpaque` | kernel/graphics/frame_buffer.cpp:163-168 | one memcpy per line is the unkeyed pixel copy |
| `Bytes.OpaqueRow` | kernel/graphics/frame_buffer.cpp:163-168 | copying a line pixel by pixel without a key is copying it in one piece |
| `Bytes.CopyRowsHit` | kernel/graphics/frame_buffer.cpp:36-60 | pixel (i, j) of a copied rectangle is the source pixel unless that is the key, whatever later lines write |
| `Bytes.CopyRowsMiss` | kernel/graphics/frame_buffer.cpp:36-60 | bytes outside the copied lines are unchanged |
| `FrameBuffers.FrameBuffer.Clone` | kernel/graphics/frame_buffer.cpp:182-194 | a clone has the same shape and bytes in memory of its own |
| `FrameBuffers.FrameBuffer.Forward` | kernel/graphics/frame_buffer.cpp:112-114 | the whole buffer is overwritten |
| `FrameBuffers.FrameBuffer.CopySelfY` | kernel/graphics/frame_buffer.cpp:116-118 | whole scan lines move, overlapping or not, and no other cell changes |
| `FrameBuffers.FrameBuffer.WritePixel` | kernel/graphics/device_pixel_writer.cpp:4-26 | one cell becomes the encoded colour, no other cell changes |
| `FrameBuffers.ChannelsInOrder` | kernel/graphics/device_pixel_writer.cpp:4-26 | a colour is written and read with its channels in the order the format names |
| `FrameBuffers.KeyedByColour` | kernel/graphics/device_pixel_writer.cpp:4-26 | with a zero reserved byte, equal bytes mean equal colours in both formats |
| `ColourKeys.DamageKeepsReserved` | kernel/graphics/frame_buffer.cpp:152-161 | redrawing from layers whose reserved bytes are zero keeps them zero in the target |
| `ColourKeys.PaintKeepsReserved` | kernel/graphics/layer_manager.cpp:73-77 | so does painting all layers |
| `ColourKeys.ZeroFilledIsReserved` | kernel/graphics/frame_buffer.cpp:96-106 | the zero-filled memory of a new layer has zero reserved bytes |
| `Painters.StillReserved` | kernel/graphics/device_pixel_writer.cpp:4-26 | drawing calls and line moves keep reserved bytes zero |
| `Sessions.HiddenByColour` | kernel/graphics/frame_buffer.cpp:152-161 | in every state a run reaches, every keyed layer at every depth shows nothing exactly where its pixel has the key colour |
| `ColourKeys.HiddenIffKeyColour` | kernel/graphics/frame_buffer.cpp:152-161 | a keyed layer shows nothing exactly where its pixel has the key colour |
| `Composition.DrawAt` | kernel/graphics/buffer_layer.cpp:14-16 | drawing a layer shows its own pixels where it has some and leaves the rest |
| `Composition.DrawInAt` | kernel/graphics/buffer_layer.cpp:18-26 | drawing a layer inside a damage rectangle does that inside the rectangle only |
| `Composition.PaintAt` | kernel/graphics/layer_manager.cpp:73-77 | painting all layers bottom to top shows the topmost pixel everywhere |
| `Composition.PaintInAt` | kernel/graphics/layer_manager.cpp:112-114 | the same inside a damage rectangle, nothing outside |
| `Composition.ConsistentIffPainted` | kernel/graphics/layer_manager.cpp:65-77 | a screen is consistent with a stack exactly when repainting everything would change nothing |
| `Composition.CoveredIsFullPaint` | kernel/graphics/layer_manager.cpp:73-77 | on a covered screen being consistent is being the full painting over any base |
| `Composition.IndependentIffCovered` | kernel/graphics/layer_manager.cpp:73-77 | draw_to never clears: its result is independent of the old contents if and only if every pixel is covered |
| `Composition.OpaqueBottomCovers` | kernel/graphics/layer_manager.cpp:73-77 | an opaque bottom layer that includes the screen covers it |
| `Composition.DamageRedrawIsFullRedraw` | kernel/graphics/layer_manager.cpp:79-115 | if one layer changed inside a rectangle and was not lowered, the damage redraw, skipping included, makes the screen consistent and changes nothing outside |
| `Composition.CoverShowsTop` | kernel/graphics/layer_manager.cpp:91-110 | starting at the topmost opaque layer that covers the damage loses nothing |
| `Composition.DamageStaysInside` | kernel/graphics/layer_manager.cpp:91-115 | a damage redraw changes nothing outside its rectangle |
| `Composition.CopyingDamageSyncs` | kernel/graphics/layer_manager.cpp:185-198 | copying the damaged rectangle makes the front buffer equal to the back buffer |
| `StackEdits.MoveIsLocal` | kernel/graphics/layer.cpp:34-39 | a move is local to the union of the old and the new area |
| `StackEdits.GroupChangeIsLocal` | kernel/graphics/layer.cpp:45-49 | a change inside a group is local to the translated rectangle in the parent |
| `StackEdits.InsertIsLocal` | kernel/graphics/layer_manager.cpp:146-154 | showing a hidden layer is local to its area |
| `StackEdits.RaiseIsLocal` | kernel/graphics/layer_manager.cpp:156-161 | raising a layer is local to its area and lets the skip rule stand |
| `StackEdits.HideExact` | kernel/graphics/layer_manager.cpp:125-130 | hide does not repaint: the screen stays consistent if and only if wherever the layer was seen the rest shows nothing or the same pixel |
| `StackEdits.LowerExact` | kernel/graphics/layer_manager.cpp:132-162 | lowering leaves the screen consistent if and only if, when an opaque layer above covers the whole area, every pixel where the layer was seen keeps its value |
| `StackEdits.BuriedIffSkipped` | kernel/graphics/layer_manager.cpp:91-110 | the redraw of a lowered layer is skipped exactly when an opaque layer above it covers its area |
| `StackEdits.RekeyExact` | kernel/graphics/layer.cpp:22-24 | set_transparent_color does not repaint: the screen stays consistent if and only if, where nothing lies above the layer and what it shows changes, the stack shows nothing or the pixel already there |
| `StaleScreens.HidingCanLeaveStalePixels` | kernel/graphics/layer_manager.cpp:125-130 | two opaque layers of any two different colours, in either format, on which hide leaves a wrong pixel |
| `StaleScreens.LoweringCanLeaveStalePixels` | kernel/graphics/layer_manager.cpp:132-162 | the same for a lowering up_down |
| `StaleScreens.RekeyingCanLeaveStalePixels` | kernel/graphics/layer.cpp:22-24 | the same for a changed transparent colour |
| `OpenPainters.StrokeWets` | kernel/graphics/painter.cpp:29-48 | a drawing call changes no pixel of its layer outside the grown damage box |
| `OpenPainters.EndIsLocal` | kernel/graphics/painter.cpp:17-23 | when a painter ends, pixels of its layer inside its box become finished and nothing else does |
| `OpenPainters.WetTop` | kernel/graphics/painter.cpp:12-48 | where the pixel seen is finished, marking the unfinished pixels of all open painters changes nothing that is seen |
| `OpenPainters.FinishedTop` | kernel/graphics/painter.cpp:12-48 | where every unfinished pixel is behind a pixel of a higher layer, none is seen |
| `StaleAreas.DamageOff` | kernel/graphics/layer_manager.cpp:91-115 | a damage redraw, skipped or not, spoils no finished pixel outside areas already stale |
| `StaleAreas.EditOff` | kernel/graphics/layer_manager.cpp:125-130 | an edit without a repaint spoils at most the area of the layer |
| `StaleAreas.RunIsFine` | kernel/graphics/layer_manager.cpp:57-183 | over every mixture of moves, insertions, raises, lowerings, hides, key changes, redraws and any number of painters open meanwhile, each starting, drawing and ending at any time, the screen is right outside the areas left stale since the last draw wherever no unfinished pixel is seen |
| `StaleAreas.AllEnded` | kernel/graphics/layer_manager.cpp:57-183 | once all painters have ended and nothing is stale the screen is consistent |
| `Layers.Layer.Damage` | kernel/graphics/layer.cpp:45-49 | propagation to the manager: the change of the layer is redrawn there and in every ancestor |
| `Layers.Layer.Move` | kernel/graphics/layer.cpp:34-39 | after a move every manager at every depth shows the composition of its stack |
| `Layers.Layer.SetTransparentColor` | kernel/graphics/layer.cpp:22-24 | the key changes without a repaint; the layer's manager stays fresh if and only if no stale pixel is left, every other manager stays fresh |
| `Layers.Layer.MoveRelative` | kernel/graphics/layer.cpp:41-43 | the layer is where it was, shifted by the vector, and what was fresh still is |
| `Layers.Layer.DrawTo` | kernel/graphics/group_layer.cpp:17-19 | drawing a layer, buffer or group, is drawing its view |
| `Layers.Layer.DrawToIn` | kernel/graphics/group_layer.cpp:21-29 | the same inside a damage rectangle |
| `Layers.LayerManager.DrawAllTo` | kernel/graphics/layer_manager.cpp:73-77 | draw_to is painting the stack bottom to top |
| `Layers.LayerManager.DrawDamageTo` | kernel/graphics/layer_manager.cpp:91-115 | the downward scan, the skip and the upward loop compute the damage redraw |
| `Layers.LayerManager.FindCover` | kernel/graphics/layer_manager.cpp:91-110 | the downward scan finds the topmost opaque layer that includes the rectangle |
| `Layers.LayerManager.MergeRects` | kernel/graphics/layer_manager.cpp:117-123 | the loop computes the merge of all rectangles |
| `Layers.LayerManager.Redraw` | kernel/graphics/layer_manager.cpp:185-198 | after the redraw the target is the damage redraw and front and back buffer are equal |
| `Layers.LayerManager.Damage` | kernel/graphics/layer_manager.cpp:79-89 | damage at any depth redraws this buffer, keeps every other manager the composition of its stack, ancestors included, terminates, and touches no deeper buffer |
| `Layers.LayerManager.DamageHere` | kernel/graphics/layer_manager.cpp:79-84 | redrawing this buffer may make only the manager its group is shown in stale |
| `Layers.LayerManager.DamageInGroup` | kernel/graphics/layer_manager.cpp:79-89 | in a group, what changed is inside the damaged rectangles as the parent sees them, and the parent still shows the group as it was |
| `Layers.LayerManager.Hide` | kernel/graphics/layer_manager.cpp:125-130 | hide drops the layer, also in a stale manager; a fresh one stays fresh exactly if no stale pixel is left, all others stay fresh |
| `Layers.LayerManager.ShowAt` | kernel/graphics/layer_manager.cpp:146-154 | showing a hidden layer keeps every fresh manager fresh |
| `Layers.LayerManager.Reorder` | kernel/graphics/layer_manager.cpp:156-161 | raising keeps every fresh manager fresh, lowering exactly under the stated condition |
| `Layers.LayerManager.UpDown` | kernel/graphics/layer_manager.cpp:132-162 | the new stack for every height (negative, too large, hidden or shown layer) and which managers are fresh afterwards, whatever was stale before |
| `Layers.LayerManager.Draw` | kernel/graphics/layer_manager.cpp:65-71 | drawing any manager equals painting bottom to top and makes it fresh; only the manager its group is shown in may then be stale |
| `Layers.World.Redrawn` | kernel/graphics/layer_manager.cpp:65-71 | a complete redraw leaves all other managers but that of the parent as fresh as they were |
| `Layers.World.EditIsLocal` | kernel/graphics/layer_manager.cpp:125-130 | an edit of one manager leaves every other as fresh as it was |
| `Layers.LayerManager.SetBuffer` | kernel/graphics/layer_manager.cpp:166-174 | the back buffer is a clone of the screen, so both are equal; every other manager stays fresh |
| `Layers.LayerManager.NewBufferLayer` | kernel/graphics/buffer_layer.cpp:7-8 | a new layer is hidden, at the corner, without a key, has a fresh id and all bytes zero, and changes no picture |
| `Layers.LayerManager.NewGroupLayer` | kernel/graphics/group_layer.cpp:7-11 | a new group wires its own manager to its own buffer and changes no picture |
| `Layers.LayerManager.FindLayer` | kernel/graphics/layer_manager.cpp:20-26 | the layer with an id, if and only if there is one |
| `Layers.World.OthersStayFresh` | kernel/graphics/layer_manager.cpp:79-89 | redrawing one manager leaves every manager fresh except its parent |
| `Layers.World.PaintingIsLocal` | kernel/graphics/buffer_layer.cpp:28-30 | while a layer is painted nothing but its own pixels has changed |
| `NestedComposition.FreshIsDeep` | kernel/graphics/group_layer.cpp:7-29 | with every manager fresh, the top of a stack is the recursive composition of the tree of groups, at any depth |
| `NestedComposition.ScreenIsDeepComposition` | kernel/graphics/group_layer.cpp:7-29 | the screen, front and back, shows the recursive composition wherever that shows something |
| `NestedComposition.ScreenIsFullPaint` | kernel/graphics/layer_manager.cpp:65-123 | over an opaque background front and back buffer are what painting all layers bottom to top gives over any base |
| `NestedComposition.ScreenIsFullComposition` | kernel/graphics/group_layer.cpp:7-29 | over an opaque background every screen pixel is that of the recursive composition |
| `NestedComposition.PlainIsDeep` | kernel/graphics/group_layer.cpp:7-29 | with an opaque background in every manager no group buffer is ever looked at |
| `NestedComposition.ScreenIsPlainComposition` | kernel/graphics/group_layer.cpp:7-29 | then every screen pixel, front and back, is a function of the pixels of plain layers at whatever depth |
| `Painters.FillRectangle` | kernel/graphics/graphics.cpp:14-24 | exactly the pixels of the rectangle get the colour |
| `Painters.WriteAscii` | kernel/graphics/font.cpp:20-34 | exactly the set bits of the glyph get the colour |
| `Painters.DrawBorder` | kernel/graphics/graphics.cpp:26-40 | exactly the border pixels get the colour, also of a rectangle that is empty in one direction or in both |
| `Painters.BorderInsideIff` | kernel/graphics/painter.cpp:35-38 | the border lies in the rectangle it is damaged with if and only if the rectangle is empty in both directions or in none |
| `Painters.BorderEscapes` | kernel/graphics/painter.cpp:35-38 | on every rectangle that is empty in one direction only draw_rectangle writes a pixel outside the rectangle it damages |
| `Painters.Painter.RawDamage` | kernel/graphics/painter.cpp:73-83 | the damage box grows to the merge |
| `Painters.Painter.DrawFilledRectangle` | kernel/graphics/painter.cpp:40-43 | the pixels drawn; every change since the start stays inside the damage box and reserved bytes stay zero |
| `Painters.Painter.DrawRectangle` | kernel/graphics/painter.cpp:35-38 | the same for a border, for exactly the rectangles whose border lies in them |
| `Painters.Painter.DrawAscii` | kernel/graphics/painter.cpp:45-48 | the same for a character |
| `Painters.Painter.CopyY` | kernel/graphics/painter.cpp:29-33 | the same for moving lines |
| `Painters.Painter.End` | kernel/graphics/painter.cpp:17-23 | when painting ends every manager at every depth that was fresh shows the new pixels |
| `Drawings.DrawOne` | kernel/graphics/painter.cpp:29-48 | one call leaves the layer with the drawn picture: the colour where the call draws, the pixel of another line where lines are moved, the old pixel elsewhere; the damage box stays around all changes |
| `Drawings.DrawMany` | kernel/graphics/painter.cpp:29-48 | any sequence of rectangles, borders, characters and line moves leaves the picture the calls map the old one to, one after the other |
| `Drawings.BorderIsEdge` | kernel/graphics/graphics.cpp:26-40 | a border is the rectangle without its inner part, if the rectangle is empty in both directions or in none |
| `Drawings.DrawSeen` | kernel/graphics/painter.cpp:29-48 | what is seen after the k-th call: what it draws, and elsewhere what the calls before it have drawn |
| `Sessions.PaintLayer` | kernel/graphics/painter.cpp:12-48 | a paint session of any drawing calls: the layer has the picture the calls map its old one to, no other plain layer changes, and what was fresh shows the new pixels |
| `Sessions.MoveTo` | kernel/graphics/layer.cpp:34-39 | the layer, and nothing else of the scene, is at the new place |
| `Sessions.Recolour` | kernel/graphics/layer.cpp:22-24 | the layer, and nothing else of the scene, has the new key |
| `Sessions.Reheight` | kernel/graphics/layer_manager.cpp:132-162 | the layer is brought to its height among the others or taken out, no plain layer changes, and the manager may be stale only if the layer was hidden or lowered |
| `Sessions.DrawManager` | kernel/graphics/layer_manager.cpp:65-71 | draw makes its manager fresh and may leave only the parent's manager stale |
| `Sessions.Execute` | kernel/graphics/layer_manager.cpp:57-198 | one command, creation of layers and groups included, turns the scene the objects depict into the scene the command describes; which managers it may leave stale and which it makes fresh |
| `Sessions.Run` | kernel/graphics/layer_manager.cpp:57-198 | every run of creations, moves, paints, restackings, key changes and redraws at any depth: front equals back, what is known to be fresh is the composition of its stack, repainting commands keep everything fresh; a fresh root over a background shows the painting of all layers over any base, and the objects depict the scene told by the commands: with everything fresh over backgrounds each screen pixel is that of the scene |
| `Sessions.Boot` | kernel/graphics/graphics.cpp:113-115 | a new root manager gets its screen and is drawn: everything is fresh |
| `Sessions.RunFromBoot` | kernel/graphics/layer_manager.cpp:57-198 | from a screen with any contents and an empty scene: the commands alone tell which managers may be stale and, when none is, each pixel of the screen, at any depth of groups |
| `Scenes.ApplyValid` | kernel/graphics/layer_manager.cpp:57-198 | commands keep scenes well formed: stacks hold layers of their own manager and groups nest |
| `Depictions.PlainIsScene` | kernel/graphics/group_layer.cpp:7-29 | what the plain layers of the objects show, through groups of any depth, is what the scene they depict shows |
| `Depictions.NumbersRestacked` | kernel/graphics/layer_manager.cpp:132-162 | restacking the objects is restacking their numbers |
| `Depictions.BackgroundsAreAll` | kernel/graphics/group_layer.cpp:7-29 | a scene with opaque backgrounds for the screen and each group is one of managers whose buffers are covered |
| `Sessions.StaleCovers` | kernel/graphics/layer_manager.cpp:57-198 | the managers a command may leave stale are those the scene tells |
| `Sessions.SceneIsShown` | kernel/graphics/group_layer.cpp:7-29 | with everything fresh over backgrounds each screen pixel is that of the scene |
| `Sessions.RedrawAll` | kernel/graphics/layer_manager.cpp:65-71 | drawing every manager, groups before the managers that show them, makes everything fresh again |
| `Desktops.ShowLayer` | kernel/graphics/layer_manager.cpp:132-154 | showing a hidden layer puts it at its height; everything stays settled and keeps its pixels |
| `Desktops.FillGroup` | kernel/graphics/graphics.cpp:86-105 | the group gets an opaque green background of its own size and a magenta square of 100 by 100 pixels at (10, 10) with a yellow one in it, under a green key; everything stays settled |
| `Desktops.ShowAll` | kernel/graphics/graphics.cpp:107-111 | one up_down after the other stacks the layers in order |
| `Desktops.ShowDesktop` | kernel/graphics/graphics.cpp:113-115 | set_buffer and draw bring the prepared layers to the screen |
| `Desktops.PutOnScreen` | kernel/graphics/graphics.cpp:107-115 | stacking the prepared layers and drawing them makes each screen pixel a function of the plain layers, the one inside the group included |
| `Desktops.InitializeGraphics` | kernel/graphics/graphics.cpp:42-115 | from a screen with any contents to one whose every pixel is the composition of the plain layers of desktop, console, group, window and cursor, each at its place; every manager has an opaque background, and the background and the two layers of the group have the pictures their drawing calls make |
| `Desktops.GroupShowsSquare` | kernel/graphics/graphics.cpp:86-105 | the group shows its square, magenta with yellow inside, and nothing else |
| `Desktops.DesktopIsSeen` | kernel/graphics/graphics.cpp:42-115 | after initialize_graphics, outside the area of the console, in which window and cursor lie, the colour of each screen pixel: the square of the group, the red square, the button, its frame, the task bar or the desktop |
| `ConsoleText.PutAllIsLayout` | kernel/graphics/console.cpp:83-101 | writing character by character with lazy wrapping is splitting the text at newlines and cutting each line every 80 characters |
| `ConsoleText.CallsAreLayout` | kernel/graphics/console.cpp:17-36 | how a text is divided into put_string calls makes no difference |
| `ConsoleText.AppendPixel` | kernel/graphics/console.cpp:68-74 | drawing one glyph over the old screen is the screen of the longer text |
| `ConsoleText.NewRowPixel` | kernel/graphics/console.cpp:103-113 | at the bottom the screen of the new text is the old one moved up by 16 lines with the last row cleared |
| `Consoles.DrawCharAt` | kernel/graphics/console.cpp:68-74 | the glyph is drawn in its cell, nothing for NUL |
| `Consoles.Redraw` | kernel/graphics/console.cpp:50-66 | clearing and drawing every stored character shows the last 25 rows of the text |
| `Consoles.Console.SetPixelWriter` | kernel/graphics/console.cpp:12-15 | a new writer shows the whole text |
| `Consoles.Console.NewLine` | kernel/graphics/console.cpp:38-48 | grid, cursor and pixels follow the text |
| `Consoles.Console.PutString` | kernel/graphics/console.cpp:17-36 | grid, cursor and pixels are those of the text with the string appended |
| `Consoles.FastConsole.constructor` | kernel/graphics/console.cpp:78-81 | the empty text is on show, on every screen the layer appears on |
| `Consoles.FastConsole.NewLine` | kernel/graphics/console.cpp:103-113 | moving pixels and clearing the last row shows the text with a new row |
| `Consoles.FastConsole.Scroll` | kernel/graphics/console.cpp:111-112 | at the bottom, moving pixels and clearing the last row shows the text with a new row |
| `Consoles.FastConsole.PutString` | kernel/graphics/console.cpp:83-101 | pixels and cursor are those of the text with the string appended, and every manager shows them |
| `Consoles.RunBoth` | kernel/graphics/console.cpp:17-113 | for every sequence of put_string calls both consoles show the same pixels, those of the last 25 rows of the laid-out text |
| `RingProtocol.StepInv` | kernel/usb/xhci/ring.cpp:30-53 | every word written or read keeps the ring invariant while at most buf_size - 2 blocks are unconsumed |
| `RingProtocol.WriteInv` | kernel/usb/xhci/ring.cpp:30-36 | each single word write, link words included, keeps the invariant |
| `RingProtocol.FinishInv` | kernel/usb/xhci/ring.cpp:38-53 | a controller that acts on a fully read block takes the oldest one or follows the link |
| `Trbs.LinkTrb` | kernel/usb/interface/usb/xhci/trb.hpp:181-192 | the link leads to the segment it is made for and toggles the cycle state |
| `Trbs.FieldsIgnoreCycle` | kernel/usb/xhci/ring.cpp:30-36 | storing the cycle bit changes no other field of a block |
| `RingProtocol.RingIsFifo` | kernel/usb/xhci/ring.cpp:12-53 | over every interleaving of word accesses the controller consumes exactly the pushed blocks, in order, none lost, duplicated or torn; the link it reads takes it back to the start of the segment, never astray |
| `RingProtocol.NeverBlind` | kernel/usb/xhci/ring.cpp:38-53 | a resting controller sees a valid block exactly when one is pending or a link is due |
| `RingProtocol.PushIsWrites` | kernel/usb/xhci/ring.cpp:38-53 | a call of Push is the sequence of its word writes |
| `RingBound.OneMoreDeadlocks` | kernel/usb/xhci/ring.cpp:38-53 | the bound is exact: for every ring size, one more unconsumed block leads to a state in which neither side can ever move |
| `EventRingProtocol.FrontIsOldest` | kernel/usb/interface/usb/xhci/ring.hpp:85-91 | HasFront is true if and only if an event is unconsumed, and Front is the oldest |
| `EventRingProtocol.PopInv` | kernel/usb/xhci/ring.cpp:99-111 | Pop drops exactly the oldest event |
| `EventRingProtocol.EventsAreFifo` | kernel/usb/xhci/ring.cpp:55-111 | over every interleaving the popped and pending events are the produced ones in order |
| `Rings.Ring.constructor` | kernel/usb/xhci/ring.cpp:12-28 | a new ring is the protocol start state at its segment's address |
| `Rings.Ring.CopyToLast` | kernel/usb/xhci/ring.cpp:30-36 | the four words with the cycle bit |
| `Rings.Ring.Push` | kernel/usb/xhci/ring.cpp:38-53 | the call is the protocol push, at the end of the segment with a link back to its own start, and returns the slot |
| `Rings.EventRing.HasFront` | kernel/usb/interface/usb/xhci/ring.hpp:85-91 | true exactly when an event is unconsumed |
| `Rings.EventRing.Pop` | kernel/usb/xhci/ring.cpp:99-111 | the oldest event is dropped |
| `Ports.StepIsExclusive` | kernel/usb/xhci/xhci.cpp:85-276 | after every event a port is between reset and address assignment if and only if it is addressing_port |
| `Ports.StepMovesForward` | kernel/usb/xhci/xhci.cpp:24-43 | phases never go back, and a command is pushed exactly when its phase is entered |
| `Ports.RunIsExclusive` | kernel/usb/xhci/xhci.cpp:188-276 | over every run mutual exclusion holds and each port has issued each command once if it reached its phase, else never |
| `Ports.StepMovesRight` | kernel/usb/xhci/xhci.cpp:85-276 | a port enters a phase exactly if the event is the one for it, stated phase by phase; a port done with its address hands over to the lowest waiting one |
| `Ports.NextIsReset` | kernel/usb/xhci/xhci.cpp:247-256 | when the addressed port is done, the lowest waiting port, if connected, is being reset and is the addressing port |
| `Ports.ServedUnlessMissed` | kernel/usb/xhci/xhci.cpp:85-276 | whenever a port waits one is being served: an event breaks that exactly if the next in line is asked for while unplugged |
| `Ports.RunServes` | kernel/usb/xhci/xhci.cpp:85-276 | over every run in which the ports in line stay connected, while any port waits some port is between reset and address assignment |
| `Ports.ChangesAreBounded` | kernel/usb/xhci/xhci.cpp:24-43 | at most seven phase changes per port in any run |
| `CommandFlow.StepDevices` | kernel/usb/xhci/xhci.cpp:127-158 | a slot is filled only by the completion of its EnableSlot, for the port being addressed |
| `CommandFlow.StepAwaits` | kernel/usb/xhci/xhci.cpp:220-276 | a port awaits a command after a step if it was just issued, or was awaited and not answered |
| `CommandFlow.NextInv` | kernel/usb/xhci/xhci.cpp:107-276 | outstanding commands are exactly those whose port is in the awaiting phase, and slots belong to distinct ports |
| `CommandFlow.AwaitingPortHasCommand` | kernel/usb/xhci/xhci.cpp:107-276 | each port in a command phase has exactly one outstanding command, of that kind |
| `CommandFlow.WaitingHasReason` | kernel/usb/xhci/xhci.cpp:107-276 | while a port waits, the port being served is being reset or has a command outstanding |
| `CommandFlow.AtMostNineOutstanding` | kernel/usb/xhci/xhci.cpp:107-276 | at most nine commands are outstanding |
| `CommandFlow.AtMost25Issued` | kernel/usb/xhci/xhci.cpp:107-276 | at most 25 commands are ever issued |
| `CommandRing.IssuerIsRight` | kernel/usb/xhci/xhci.cpp:220-233 | a completion reads back from the ring the kind of command that was issued and the slot it was issued for |
| `CommandRing.HandleInv` | kernel/usb/xhci/xhci.cpp:107-125 | handling an event on top of the shared ring is the abstract step, and its push is accepted |
| `CommandRing.NeverOverruns` | kernel/usb/xhci/xhci.cpp:360-370 | wherever the ring lies in memory, in every reachable state of driver, memory and controller at most nine commands are unread or outstanding and every push is within the safe bound of the 32-entry ring |
| `PortDriver.Bringup.ResetPort` | kernel/usb/xhci/xhci.cpp:85-105 | the handler is the protocol function on the tables |
| `PortDriver.Bringup.Record` | kernel/usb/xhci/xhci.cpp:188-276 | every handler keeps mutual exclusion, moves exactly the ports that should move, forgets no waiting port, and never issues a command its port has issued before |
| `PortDriver.Bringup.ConfigurePort` | kernel/usb/xhci/xhci.cpp:407-412 | mutual exclusion and the at-most-once log are kept, exactly the ports move that should, no waiting port is forgotten, and the handler is the protocol step |
| `PortDriver.Bringup.OnPortStatusChange` | kernel/usb/xhci/xhci.cpp:188-201 | mutual exclusion and the at-most-once log are kept, exactly the ports move that should, no waiting port is forgotten, and the handler is the protocol step |
| `PortDriver.Bringup.OnTransfer` | kernel/usb/xhci/xhci.cpp:203-218 | mutual exclusion and the at-most-once log are kept, exactly the ports move that should, no waiting port is forgotten, and the handler is the protocol step |
| `PortDriver.Bringup.OnAddressed` | kernel/usb/xhci/xhci.cpp:234-260 | the handler is the protocol function; its loop finds the first waiting port |
| `PortDriver.Bringup.OnCommandCompletion` | kernel/usb/xhci/xhci.cpp:220-276 | mutual exclusion and the at-most-once log are kept, exactly the ports move that should, no waiting port is forgotten, and the handler is the protocol step |
| `ControlTransfers.RebuildInverts` | kernel/usb/xhci/device.cpp:10-19 | a block that carries the eight bytes of a setup packet is rebuilt as that request, bit for bit |
| `ControlTransfers.BothAreTransfers` | kernel/usb/xhci/device.cpp:105-193 | both calls build the stages of the request: a setup block with its packet as immediate data and the transfer type, a data block with the buffer's address, length and direction that is reported, a status block of the other direction that is reported only without data |
| `ControlTransfers.PushedStages` | kernel/usb/xhci/device.cpp:126-143 | pushed stages are in memory one after another, across the link, whatever their cycle bits |
| `ControlTransfers.ReportsTransfer` | kernel/usb/xhci/device.cpp:242-276 | a report is of the request and the buffer passed to the call: its address, and its length less the residual |
| `ControlTransfers.PushAllEffect` | kernel/usb/xhci/ring.cpp:38-53 | consecutive pushes write consecutive slots across the link and no others |
| `ControlTransfers.IssueInv` | kernel/usb/xhci/device.cpp:126-143 | a transfer that fits adds exactly its own map entry and harms no outstanding block |
| `ControlTransfers.CompleteInv` | kernel/usb/xhci/device.cpp:242-276 | the event on the oldest transfer reports its own request, buffer and length and leaves the others in place |
| `ControlTransfers.BlockCount` | kernel/usb/xhci/device.cpp:126-143 | a transfer has two or three blocks, so n transfers have between 2n and 3n |
| `ControlTransfers.Overrun` | kernel/usb/xhci/device.cpp:105-193 | the first transfer that does not fit makes the next report right if and only if the overwriting block reads as the old request |
| `ControlTransfers.EleventhOverwrites` | kernel/usb/xhci/device.cpp:105-193 | eleven unanswered reads of the device descriptor, after which the first answer is taken for one to another request |
| `TransferRing.AccessRemembers` | kernel/usb/xhci/ring.cpp:30-53 | whatever words are written or read, the last thirty blocks pushed are still in their slots |
| `TransferRing.AccessReads` | kernel/usb/xhci/ring.cpp:38-53 | however many blocks are unread, the controller takes the g-th block from the slot it was pushed to, and follows the link exactly at the end |
| `TransferRing.EventInv` | kernel/usb/xhci/device.cpp:233-277 | an event on the slot the controller has read from rebuilds the request of its own transfer and frees exactly its map entry |
| `TransferRing.CallEnds` | kernel/usb/xhci/device.cpp:126-143 | when a call ends the map has exactly its entry more |
| `TransferRing.CompletionsReachTheirRequests` | kernel/usb/xhci/device.cpp:105-277 | over every interleaving of calls, word accesses and events with at most ten transfers outstanding, or while there is room, across wraps: each event names the slot the controller took the block from, the i-th report is that of the i-th request, and the map holds one entry per outstanding transfer |
| `TransferRing.UnreadBound` | kernel/usb/xhci/device.cpp:129-134 | at most one block is unread beyond those of the outstanding transfers and the call in progress: the status block of the transfer reported last |
| `TransferRing.NeverOverruns` | kernel/usb/xhci/ring.cpp:38-53 | with at most nine transfers at once, or while outstanding, trailing and new blocks are at most thirty, the unchecked Push never overruns the ring, and the controller reads exactly the pushed blocks in order |
| `TransferRing.NineFit` | kernel/usb/xhci/device.cpp:105-193 | when at most nine transfers are admitted at once there is always room for the blocks of the next |
| `TransferDeadlock.TenCanDeadlock` | kernel/usb/xhci/device.cpp:105-193 | whenever ten may be admitted: a run from a new device, for any transfers of three and two blocks, to a state with ten outstanding and 31 unread blocks that, while no eleventh is admitted, no action of driver or controller changes |
| `TransferDeadlock.TenRequestsCanDeadlock` | kernel/usb/xhci/device.cpp:105-148 | in particular with any request and any buffer passed to ControlIn |
| `TransferDeadlock.SafeIffNine` | kernel/usb/xhci/device.cpp:105-193 | at most thirty blocks are unread in every run if and only if at most nine transfers are admitted at once |
| `TransferDeadlock.EleventhMisreports` | kernel/usb/xhci/device.cpp:105-277 | a run with eleven at once, word by word, after which the first report names another request |
| `TransferDeadlock.RightIffTen` | kernel/usb/xhci/device.cpp:105-277 | every report of every run is that of its own transfer if and only if at most ten transfers are admitted at once |
| `ControlPipes.ControlPipe.ControlIn` | kernel/usb/xhci/device.cpp:105-148 | errors change nothing; otherwise the stages of the request and buffer are in memory from the old write index on and the pair is recorded |
| `ControlPipes.ControlPipe.ControlOut` | kernel/usb/xhci/device.cpp:150-193 | errors change nothing; otherwise the stages of the request and buffer are in memory from the old write index on and the pair is recorded |
| `ControlPipes.ControlPipe.OnTransferEvent` | kernel/usb/xhci/device.cpp:233-277 | a failed event changes nothing; a successful one is the abstract completion |
| `ArrayMaps.LookupFinds` | kernel/usb/interface/usb/arraymap.hpp:14-21 | with distinct keys the table is the map of its pairs |
| `ArrayMaps.InsertAdds` | kernel/usb/interface/usb/arraymap.hpp:23-31 | with a free entry and a new key exactly one pair is added |
| `ArrayMaps.RemoveDrops` | kernel/usb/interface/usb/arraymap.hpp:33-40 | exactly the pair of the key is dropped |
| `ArrayMaps.SomeFree` | kernel/usb/interface/usb/arraymap.hpp:23-31 | a table with fewer pairs than entries has room |
| `ArrayMaps.ArrayMap.Get` | kernel/usb/interface/usb/arraymap.hpp:14-21 | the search loop is the lookup |
| `ArrayMaps.ArrayMap.Put` | kernel/usb/interface/usb/arraymap.hpp:23-31 | the loop fills the first free entry, or drops the pair when full |
| `ArrayMaps.ArrayMap.Delete` | kernel/usb/interface/usb/arraymap.hpp:33-40 | the loop frees the first entry with the key |
| `MemoryManager.BitmapMemoryManager.GetBit` | kernel/memory_manager.cpp:16-20 | the masked test tells whether the frame is in the marked set |
| `MemoryManager.BitmapMemoryManager.SetBit` | kernel/memory_manager.cpp:22-31 | one frame is added or removed |
| `MemoryManager.BitmapMemoryManager.MarkAllocated` | kernel/memory_manager.cpp:5-9 | exactly the block is added |
| `MemoryManager.BitmapMemoryManager.Allocate` | kernel/memory_manager.cpp:33-56 | the search that jumps past marked frames terminates and finds the lowest free run, if and only if there is one, and marks exactly it |
| `MemoryManager.BitmapMemoryManager.Free` | kernel/memory_manager.cpp:58-64 | exactly the block is removed |
| `MemoryManager.LineBits` | kernel/memory_manager.cpp:22-31 | or-ing and masking a 64-bit word change exactly one bit |
| `MemoryManager.OneFrame` | kernel/memory_manager.cpp:22-31 | one bit of one word is one frame |
| `Frames.FirstFit` | kernel/memory_manager.cpp:33-56 | lowest start of a free run inside the range; none exactly if there is no such run |
| `Frames.SkipTaken` | kernel/memory_manager.cpp:48-54 | jumping past a taken frame loses no candidate |
| `Frames.AllocateConserves` | kernel/memory_manager.cpp:33-56 | allocating keeps the bitmap equal to the reserved frames and the disjoint union of the blocks |
| `Frames.FreeConserves` | kernel/memory_manager.cpp:58-64 | freeing an outstanding block keeps it too |
| `Frames.RunConserves` | kernel/memory_manager.cpp:33-64 | over every run the bitmap is the reserved frames plus the disjoint union of the outstanding blocks |
| `Frames.AllocateFreeRestores` | kernel/memory_manager.cpp:33-64 | allocating and freeing restores the state exactly |
| `MemoryMaps.InitializeMemoryManager` | kernel/memory_manager.cpp:66-90 | a frame below the range end is free if and only if an available descriptor holds it, and every available frame is below the end |
| `MemoryMaps.AvailableIsFreeAfterBoot` | kernel/memory_map.hpp:22-44 | of the firmware's memory types those are available that are free once boot services have ended |
| `MemoryMaps.Advance` | kernel/memory_manager.cpp:72-87 | one descriptor: the gap before it is reserved, and so is it unless it is available |
| `Heaps.ChunksAreDisjoint` | kernel/sbrk.cpp:11-20 | non-negative sbrk calls return chunks one above the other inside the heap |
| `Heaps.AllServedIff` | kernel/sbrk.cpp:11-20 | a run of non-negative calls is served in full if and only if together they ask for less than is left |
| `Heaps.BytesInFrames` | kernel/sbrk.cpp:11-32 | every byte handed out is at a non-zero address in a frame of the heap block |
| `Heaps.HeapStaysInItsFrames` | kernel/sbrk.cpp:11-32 | so it is in no reserved frame and in no other outstanding block |
| `Heaps.StaysInHeapIff` | kernel/sbrk.cpp:11-20 | a served call with any increment leaves the break in the heap if and only if it gives back no more than was taken |
| `Heaps.NegativeLeavesHeap` | kernel/sbrk.cpp:11-20 | on a new heap every negative call moves the break below the heap |
| `Heaps.StartHeap` | kernel/sbrk.cpp:22-32 | from the firmware memory map to the heap: all its frames belong to available descriptors, and it fails exactly if no 128 MiB of them lie together above frame 0 |
| `Heaps.Heap.Sbrk` | kernel/sbrk.cpp:11-20 | moves the break, or fails and changes nothing |
| `Heaps.Heap.InitializeHeap` | kernel/sbrk.cpp:22-32 | takes the lowest free 128 MiB, or fails and changes nothing |
| `Bits.ClearLow` | kernel/usb/memory.cpp:7-9 | clearing low bits with a mask is subtracting the remainder |
| `Bits.TestBit` | kernel/memory_manager.cpp:16-20 | a masked word is non-zero exactly if the bit is set |
| `UsbMemory.CeilRoundsUp` | kernel/usb/memory.cpp:7-9 | the mask form is rounding up to the least multiple |
| `UsbMemory.Placement` | kernel/usb/memory.cpp:21-30 | where a request is placed, for every pointer and every power-of-two alignment and boundary |
| `UsbMemory.ServesLeastAdmissible` | kernel/usb/memory.cpp:21-39 | a request no larger than its boundary, of a size whose sum with the pool end rounded up stays below 2^64, is served at the least aligned, non-crossing address at or above the pointer, and fails only if none leaves it in the pool |
| `UsbMemory.InPoolIff` | kernel/usb/memory.cpp:32-38 | a served block lies in the pool if and only if the request is no larger than the pool |
| `UsbMemory.HugeRequestsWrap` | kernel/usb/memory.cpp:32-38 | for every pointer a larger request whose end wraps around is served outside the pool |
| `UsbMemory.PoolStartsInRange` | kernel/usb/memory.cpp:18-19 | a pool in the lower quarter of the address space starts within the bounds the results need |
| `UsbMemory.ServesWell` | kernel/usb/memory.cpp:21-39 | one call on a request no larger than the pool, or larger but not so large that the pool end rounded up plus its size reaches 2^64: a served block is aligned and in the pool, and crosses no boundary if it is no larger than one |
| `UsbMemory.RunIsGood` | kernel/usb/memory.cpp:21-39 | over every run of such requests each block is aligned, lies in the pool, is disjoint from all earlier ones, and crosses no boundary unless it is larger than its boundary |
| `UsbMemory.Allocator.AllocMem` | kernel/usb/memory.cpp:21-39 | the method is the specified function, also on failure |
| `PciSpace.AddressSelects` | kernel/pci.cpp:6-10 | the address written selects the bus, device, function and register meant |
| `PciSpace.ReadsFields` | kernel/pci.cpp:24-51 | on every machine whose functions have headers laid out byte by byte, vendor, header type, class code and secondary bus read back are the header's own fields |
| `PciScan.Table.AddDevice` | kernel/pci.cpp:88-103 | one entry is appended, or Full and nothing changes |
| `PciScan.Table.ScanFunction` | kernel/pci.cpp:105-121 | the entry, then the bus behind it, are the next part of the enumeration |
| `PciScan.Table.ScanDevice` | kernel/pci.cpp:123-142 | function 0 and the other functions are the next part of the enumeration |
| `PciScan.Table.ScanBus` | kernel/pci.cpp:144-156 | the devices of the bus are the next part of the enumeration; the recursion ends on every configuration space |
| `PciScan.Table.ScanBusFromEmpty` | kernel/pci.cpp:144-156 | the table is the first min(32, total) entries of the depth-first enumeration, Full if and only if there is a 33rd |
| `PciScan.Table.ScanAllBus` | kernel/pci.cpp:158-177 | the same for the buses scan_all_bus starts from |
| `PciScan.DfsIsPrefix` | kernel/pci.cpp:105-156 | the enumeration is one sequence: asking for more entries does not change the first |
| `PciReach.DfsExact` | kernel/pci.cpp:105-156 | a finished enumeration holds a function if and only if its tasks do or a bridge in it leads there |
| `PciReach.DfsIsReachable` | kernel/pci.cpp:113-117 | every entry, also of a cut enumeration, is on a bus that bridges lead to |
| `PciReach.ScanIsExact` | kernel/pci.cpp:105-156 | a scan of any buses that is not Full lists exactly the functions on buses that bridges lead to from there |
| `PciReach.AllBusScanIsExact` | kernel/pci.cpp:158-177 | a scan_all_bus that is not Full lists a function if and only if its bus scan looks at it and its bus is reached from one of the start buses |
| `PciSpace.HopIsBridge` | kernel/pci.cpp:105-121 | a function leads to another bus exactly if its header is that of a PCI-to-PCI bridge with that secondary bus |
| `PciSpace.ReachedIsBridged` | kernel/pci.cpp:105-156 | the buses reached from a bus are those bridges of the machine lead to |
| `PciSpace.TableIsExact` | kernel/pci.cpp:158-177 | a scan_all_bus that is not Full lists exactly the visible functions on the buses bridges lead to from where it starts, each with its header's fields |
| `PciReach.BusZeroListedIff` | kernel/pci.cpp:161-174 | functions of bus 0 are listed if and only if the host bridge has a single function or a present function 1 to 7 names a bus that leads back to bus 0 |
| `PciReach.BusZeroCanBeMissed` | kernel/pci.cpp:161-174 | a configuration space with devices on bus 0 on which scan_all_bus succeeds and finds nothing |
| `Descriptors.AtOffset` | kernel/usb/device.cpp:17-23 | serialised descriptors tile the buffer |
| `Descriptors.Reader.Next` | kernel/usb/device.cpp:17-23 | each descriptor after the first, once and in order, then nothing |
| `Descriptors.Reader.NextTyped` | kernel/usb/device.cpp:25-33 | the next descriptor of a type, if there is one |
| `UsbInitialize.ReadsEndpoint` | kernel/usb/device.cpp:41-48 | the configuration read from an endpoint descriptor, laid out byte by byte, has its fields |
| `UsbInitialize.ChoosesDriver` | kernel/usb/device.cpp:50-68 | a driver is chosen for boot keyboards and boot mice, by the fields of the interface descriptor |
| `UsbInitialize.ReadsConfiguration` | kernel/usb/device.cpp:199-241 | from a configuration, a boot interface and just its endpoints, phase 2 records those endpoints field by field and asks for the configuration by its value |
| `UsbInitialize.InterfacesSuffice` | kernel/usb/device.cpp:207-214 | looking at interfaces one after another finds the first boot interface |
| `UsbInitialize.RecordsOwnIff` | kernel/usb/device.cpp:218-230 | phase 2 records exactly the interface's own endpoints if and only if it announces their number |
| `UsbInitialize.RecordsAnothersEndpoint` | kernel/usb/device.cpp:218-230 | a configuration on which the endpoint of another interface is recorded |
| `UsbInitialize.NullReadInput` | kernel/usb/device.cpp:219-220 | a configuration on which phase 2 reads through the null result of the reader |
| `UsbInitialize.PastTableInput` | kernel/usb/device.cpp:224-225 | a configuration on which phase 2 writes past its table |
| `UsbInitialize.Device.TakeEndpoint` | kernel/usb/device.cpp:221-229 | one endpoint more is recorded and its number, and no other, gets the driver |
| `UsbInitialize.Device.ReadDescriptor` | kernel/usb/device.cpp:219-230 | one turn of that loop: the descriptor is passed over or recorded, or reading it goes wrong |
| `UsbInitialize.Device.ReadEndpoints` | kernel/usb/device.cpp:216-230 | the announced number of following endpoints is recorded and their numbers get the driver, no other number does; or which fault the loop runs into |
| `UsbInitialize.Device.InitializePhase2` | kernel/usb/device.cpp:199-241 | the first boot keyboard or mouse is chosen, its endpoints are recorded and its configuration is asked for, otherwise nothing changes; it stays in the buffer and the table if and only if enough endpoints follow and at most sixteen are announced |
| `UsbInitialize.Device.InitializePhase3` | kernel/usb/device.cpp:243-250 | every recorded endpoint reaches a driver; none is missing |
| `UsbInitialize.Device.OnControlCompleted` | kernel/usb/device.cpp:141-173 | the outcome in every phase; each phase accepts only its own reply and any other leaves the device as it was |

## Left out

- Integer widths: coordinates, sizes, frame numbers and cursor positions are unbounded integers; words of blocks, bitmap lines and the USB allocator's pointer have their 32 or 64 bits.
- Register access, busy waiting, ownership handoff, interrupts and doorbells: the controller's registers appear only as values carried by events.
- Completion codes other than success for commands: `CommandFlow` and `CommandRing` assume that the controller completes each command once and successfully with a fresh slot in 1..8; the mutual exclusion results in `Ports` need no such assumption.
- Liveness of bring-up: a waiting port that is unplugged when its turn comes is not asked for again (`Ports.ServedUnlessMissed`), and running out of slots has no recovery path in the code; that the controller answers at all is not stated.
- Device and input contexts, and the pointers to them in command blocks: only the port recorded in a context is modelled.
- Failing memory allocation inside `Ring::Initialize` and `AllocTransferRing`, and allocation of class drivers.
- `InterruptIn` pushes and the `event_waiters_` map of class drivers.
- `find_layer_by_position`, `draw_string`, window decoration, mouse cursor, logging.
- Virtual dispatch: a `LayerManager` is double-buffered by a constant field, a `Layer` is a group if it has a child manager.
- C++ object lifetimes, destructors and iterator invalidation; a painter's end is a call.
- Font data: a glyph is an arbitrary 8x16 pattern, or missing.
- Memory descriptors are a sequence; stepping through the buffer by `descriptor_size` is not modelled.
- UEFI loader, GDT, IDT, paging, MSI capability registers, HID drivers.
- Desktops.InitializeGraphics: leaves out the window frame, its text and the cursor's shape, and the console object is left to `Consoles`; the screen must be at least 600 by 600 pixels, because the red square is written without a check.
- Sessions.Execute: does not issue a paint session with a call outside its layer, because the code relies on callers not to make one.
- Painters.Painter.DrawRectangle: is for the rectangles whose border lies in them, because otherwise pixels outside the damage are written; `Painters.BorderInsideIff` is that condition and `Painters.BorderEscapes` the other case.
- Rings.Ring.constructor: does not model a failing allocation.
- ControlPipes.ControlPipe.ControlIn: models one endpoint's ring, and not the waiter map of the base class.
- ControlPipes.ControlPipe.ControlOut: models one endpoint's ring, and not the waiter map of the base class.
- Heaps.ChunksAreDisjoint: is for non-negative increments; a negative one gives memory back, and `Heaps.StaysInHeapIff` says when the break stays in the heap.
- Heaps.BytesInFrames: is for non-negative increments too.
- Heaps.HeapStaysInItsFrames: is for non-negative increments too.
- UsbMemory.ServesLeastAdmissible: is for sizes whose sum with the pointer does not wrap around 2^64; `UsbMemory.InPoolIff` and `UsbMemory.HugeRequestsWrap` are the other sizes.
- UsbMemory.ServesWell: is for the same sizes.
- UsbMemory.RunIsGood: is for the same sizes.
- MemoryMaps.InitializeMemoryManager: requires a sorted, disjoint, page-aligned map below 128 GiB, which the code relies on without checking.
- UsbInitialize.Device.InitializePhase2: is for buffers tiled by descriptors of at least two bytes that are as long as their type needs; the reader does not end on a length of zero.
- UsbInitialize.Device.ReadDescriptor: is for the same buffers.
- UsbInitialize.Device.ReadEndpoints: is for the same buffers.
- UsbInitialize.Device.OnControlCompleted: is for the same buffers, and makes one outcome of the waiter lookup and its error.
- StaleAreas.RunIsFine: is about one manager and the pixels of its layers; in `Sessions.Run` a paint session is one command.
- ControlPipes.ControlPipe.OnTransferEvent: requires the event's block to lie in the pipe's ring.

# project-lemmings core, modelled in Dafny

project-lemmings is a small 2D tile platformer with a built-in level editor.
This project models four of its sequential pieces of logic and proves
properties about them:

- **Auto-tiling edits of the level editor** (`src/plug.c`, `src/plug.h`).
  The editor keeps a 13 x 22 grid of `int` tile codes. A ground tile is a
  bitmask: `BLOCK_MIDDLE` plus one connector bit for each of the left, top,
  right and bottom neighbours that is also ground. Functional tiles (coin,
  key, lever, bricks, box) are ids from 32 up. A left click places or
  erases ground and sets or clears the matching connector bits on both
  sides. A right click places a box or a key and clears the back-pointing
  bit on every neighbour. The modules are `Tiles` (codes and bit
  operations), and `TileMap` (the edits as functions on a grid value, the
  connectivity invariant, and class `Plug` with the `array2<int>` that the
  editor updates in place).
- **The XML-subset level format** (`src/xml.c`). It has a hand-written
  loader for start tags, end tags, empty-element tags, attributes and
  whitespace-free text, a pretty-printer, and tree queries. The modules are
  `XmlTree` (the node tree, building, attributes and queries), `XmlLoad`
  (the scanning loop as a function over the characters and the loop
  methods proved equal to it), `XmlWrite` (the writer as a function from a
  tree to text), `XmlRoundTrip` (what loading gives back for a written tree)
  and `XmlLoadFacts` (error cases and quirks of the loader).
- **The header-prefixed growable array** (`src/array.h`), as class
  `DynArrays.DynArray` over an `array<T>` with `size` and `capacity`.
- **The layout slot allocator** (`src/layout.c`, `src/layout.h`), module
  `Layouts`. It keeps a stack of frames, each cutting a rectangle into
  `count` slots with gaps between them.

The loader works on the file's contents with the NUL that `xml_load`
appends, and it returns the root or an error. The writer returns the
characters it would send to the file.

The loader accepts two inputs that a strict XML reader would reject:
- a quoted value without a key does not fail the load; the tag just ends
  there (`XmlLoadFacts.ValueWithoutKey`);
- elements left open at the end of the input do not fail the load; they
  stay in the tree (`XmlLoadFacts.OpenAtEnd`).

## Model

| member | source | states |
|---|---|---|
| Tiles.GroundCode | src/plug.h:17-21 | a ground code is in 1..31, has the middle bit, and has exactly the requested connector bits |
| Tiles.GroundBitsAreSingleBits | src/plug.h:17-21 | each connector value has its own bit and no other, and none of them is the middle bit |
| Tiles.GroundCodeDecodes | src/plug.h:17-21 | every value in 1..31 with the middle bit is the ground code of its own connector bits |
| Tiles.Opposite | src/plug.c:112-146 | the reciprocal direction pairs left with right and top with bottom, both ways, and has a different bit |
| Tiles.SetDir | src/plug.c:114-115 | `v \|= BLOCK_<dir>` on an `int`; no contract of its own, its meaning is stated by `SetDirBits`, `SetDirKeepsGround` and `SetDirStaysInt32` |
| Tiles.ClearDir | src/plug.c:66-69 | `v &= ~BLOCK_<dir>` on an `int`; no contract of its own, its meaning is stated by `ClearDirBits`, `ClearDirKeepsFunctional`, `ClearDirKeepsGround` and `ClearDirStaysInt32` |
| Tiles.FunctionalIds | src/plug.h:22-26 | coin, key, lever, small brick and big brick are 32..36, all with bit 5 set and none of them ground |
| Tiles.GridSize | src/plug.h:8-13 | the grid is 792/36 = 22 columns by 468/36 = 13 rows |
| Tiles.SetDirBits | src/plug.c:114-115 | OR-ing in a connector sets that bit and leaves every other connector and the middle bit as they were |
| Tiles.ClearDirBits | src/plug.c:66-69 | AND-ing out a connector clears that bit and leaves every other connector and the middle bit as they were |
| Tiles.SetDirKeepsGround | src/plug.c:114-115 | setting a connector on a ground code gives a ground code |
| Tiles.ClearDirKeepsFunctional | src/plug.c:66-69 | clearing a connector keeps a functional id (32 and up) at 32 and up |
| Tiles.ClearDirKeepsGround | src/plug.c:116-118 | clearing a connector keeps a ground code with the middle bit in 1..31 with the middle bit |
| Tiles.ClearDirChangesLever | src/plug.h:22-24 | clearing the left bit of the lever id gives the coin id |
| Tiles.SetDirStaysInt32 | src/plug.c:114-115 | setting a connector bit keeps a 32-bit value within 32 bits |
| Tiles.ClearDirStaysInt32 | src/plug.c:66-69 | clearing a connector bit keeps a 32-bit value within 32 bits |
| TileMap.Blank | src/plug.c:6-11 | the cleared grid has 13 rows of 22 cells |
| TileMap.BlankConnected | src/plug.c:6-11 | every cell of the cleared grid is empty, and the cleared grid satisfies the connector invariant |
| TileMap.AtPut | src/plug.c:106-110 | writing one cell changes that cell and no other |
| TileMap.Link | src/plug.c:112-119 | one neighbour test of the left-button branch as written; no contract of its own, stated by `LinkEffect` |
| TileMap.Unlink | src/plug.c:66 | one `&= ~` neighbour statement of the right-button branch as written; no contract of its own, stated by `UnlinkEffect` |
| TileMap.GroundEdit | src/plug.c:102-147 | the left-button branch as written: the write, then the bottom, top, left and right neighbour tests in that order; no contract of its own, stated by `GroundEditCell`, `GroundEditNeighbour`, `GroundEditFrame`, `GroundEditPreservesConnected` and `GroundEditIdempotent` |
| TileMap.FunctionalEdit | src/plug.c:56-71 | the right-button branch as written: the write, then the four neighbour statements; no contract of its own, stated by `FunctionalEditEffect`, `FunctionalEditFrame`, `FunctionalEditPreservesConnected` and `FunctionalEditIdempotent` |
| TileMap.NeighbourFacts | src/plug.c:112-146 | a cell's neighbour in a direction is adjacent to it, and the opposite direction leads back |
| TileMap.NeighboursDistinct | src/plug.c:112-146 | the four neighbours of a cell are four different cells |
| TileMap.LinkEffect | src/plug.c:112-119 | one neighbour step of the left-click edit: the cell gains the bit exactly when the neighbour is in bounds and ground and the cell is filled, the neighbour gains (cell filled) or loses (cell empty) the reciprocal bit exactly when it is ground, and no other cell changes |
| TileMap.UnlinkEffect | src/plug.c:66-69 | one neighbour step of the right-click edit clears the back-pointing bit of that neighbour and changes no other cell |
| TileMap.GroundEditCell | src/plug.c:102-147 | after the left-click edit the cell is empty when erasing, and otherwise holds the middle bit plus exactly the bits of its in-bounds ground neighbours |
| TileMap.GroundEditNeighbour | src/plug.c:112-146 | each in-bounds ground neighbour gains (when filling) or loses (when erasing) only the reciprocal bit; other neighbours keep their value |
| TileMap.GroundEditFrame | src/plug.c:102-147 | the left-click edit changes no cell other than the edited one and its orthogonal neighbours |
| TileMap.FunctionalEditEffect | src/plug.c:56-71 | the right-click edit stores the id and clears the back-pointing bit of every in-bounds neighbour, whatever its kind |
| TileMap.FunctionalEditFrame | src/plug.c:56-71 | the right-click edit changes no cell other than the edited one and its orthogonal neighbours |
| TileMap.GroundEditKeepsCellOk | src/plug.c:102-147 | from a grid satisfying the invariant, every cell satisfies it after the left-click edit |
| TileMap.FunctionalEditKeepsCellOk | src/plug.c:56-71 | from a grid satisfying the invariant, every cell satisfies it after the right-click edit with an id of 32 or more |
| TileMap.GroundEditPreservesConnected | src/plug.c:102-147 | the left-click edit preserves the invariant: every value in 1..31 has the middle bit, and has a connector bit exactly when the neighbour that way is in bounds and ground |
| TileMap.FunctionalEditPreservesConnected | src/plug.c:56-71 | the right-click edit preserves the same invariant |
| TileMap.GroundEditIdempotent | src/plug.c:102-147 | repeating the left-click edit on the same cell changes nothing |
| TileMap.FunctionalEditIdempotent | src/plug.c:56-71 | repeating the right-click edit on the same cell changes nothing |
| TileMap.Plug.constructor | src/plug.c:6-18 | a new editor has an all-empty 13 x 22 grid and places ground (mouse state true) |
| TileMap.Plug.ClearTiles | src/plug.c:73-79 | the nested loops leave every cell empty |
| TileMap.Plug.Write | src/plug.c:60-64 | the in-place write changes exactly the one cell |
| TileMap.Plug.LinkNeighbour | src/plug.c:112-119 | the in-place neighbour step has the effect of `Link` |
| TileMap.Plug.UnlinkNeighbour | src/plug.c:66-69 | the in-place neighbour step has the effect of `Unlink` |
| TileMap.Plug.PlaceGround | src/plug.c:102-147 | in bounds, the grid becomes the left-click edit of the old grid with the current mouse state; out of bounds nothing changes; the invariant is kept |
| TileMap.Plug.PlaceFunctional | src/plug.c:56-71 | in bounds, the grid becomes the right-click edit with a box (mouse state true) or a key; out of bounds nothing changes; the invariant is kept |
| TileMap.Plug.ToggleMouseState | src/plug.c:98-100 | the F key flips the mouse state and leaves the grid alone |
| DynArrays.RemoveAtOrder | src/array.h:62-66 | removing index i keeps the elements before i and shifts the later ones down one place, in order |
| DynArrays.RemoveAtMultiset | src/array.h:62-66 | removing index i removes exactly that one element |
| DynArrays.RemoveAtEnds | src/array.h:51-60 | removing index 0 drops the first element; removing the last index drops the last element |
| DynArrays.RemoveAt | src/array.h:62-66 | the contents after the `memmove` of `array_pop_at`: one element fewer; its order and multiset are stated by `RemoveAtOrder` and `RemoveAtMultiset` |
| DynArrays.GrowthRoom | src/array.h:30-33 | after the growth check there is room for n more elements, and the capacity never shrinks |
| DynArrays.GrowthWhen | src/array.h:30-33 | the capacity stays the same exactly when size + n < capacity (or nothing is asked of an empty buffer); otherwise it becomes 2 * capacity + n |
| DynArrays.DynArray.CreateInit | src/array.h:125-134 | a new array is empty, with the requested capacity |
| DynArrays.DynArray.Grow | src/array.h:104-117 | the capacity becomes 2 * capacity + n, the size and the old buffer contents are kept |
| DynArrays.DynArray.TryGrow | src/array.h:30-33 | the capacity becomes the grown capacity, leaving room for n more; the buffer is replaced only when it had to grow |
| DynArrays.DynArray.Expand | src/array.h:41-44 | the size grows by n and the old elements stay in place |
| DynArrays.DynArray.Push | src/array.h:46-49 | the contents become the old contents followed by the value |
| DynArrays.DynArray.PopFront | src/array.h:51-55 | succeeds exactly on a non-empty array and then drops the first element, keeping the rest in order; the capacity is kept |
| DynArrays.DynArray.PopLast | src/array.h:57-60 | succeeds exactly on a non-empty array and then drops the last element |
| DynArrays.DynArray.PopAt | src/array.h:62-66 | succeeds exactly when the index is below the size and then removes that element, keeping the order of the rest; otherwise nothing changes |
| DynArrays.DynArray.Resize | src/array.h:71-78 | shrinking keeps the prefix and the buffer; growing keeps the old elements and grows the capacity as `array_expand` does |
| DynArrays.DynArray.Clear | src/array.h:83-84 | the array becomes empty and keeps its capacity |
| DynArrays.DynArray.Last | src/array.h:80-81 | the value is the last element of the contents |
| DynArrays.DynArray.Contents | src/array.h:35-36 | the contents have as many elements as the size says |
| DynArrays.Size | src/array.h:35-36 | the size of a missing array is 0, otherwise the number of elements |
| DynArrays.Capacity | src/array.h:38-39 | the capacity is the buffer length and is at least the size |
| Layouts.SlotRect | src/layout.c:118-152 | a slot lies on its share of the frame's axis, trimmed by the gap, and spans the frame across the axis |
| Layouts.LayoutMake | src/layout.c:102-110 | `layout_make`: a frame with the given fields and slot index 0; what it yields is stated by `FrameYieldsCount` and `FrameTiles` |
| Layouts.Span | src/layout.c:118-152 | the offset and extent of slot i along the frame's axis, with the first, last and middle trimming of the source; no contract of its own, stated by `SpanGap`, `SpanEnds` and `SpanSingle` |
| Layouts.Take | src/layout.c:112-160 | n slot calls in a row on one frame; no contract of its own, stated by `TakeSlots` and `TakeFails` |
| Layouts.Slot | src/layout.c:112-160 | taking a slot fails with an overflow exactly when i >= count, including count = 0, and otherwise advances i by one and nothing else |
| Layouts.TakeSlots | src/layout.c:112-160 | n slots can be taken exactly when i + n <= count; they are the slots at i, i+1, ... in order, and i ends at i + n |
| Layouts.TakeFails | src/layout.c:113-116 | from any frame state, taking n slots fails exactly when n > 0 and i + n > count |
| Layouts.FrameYieldsCount | src/layout.c:102-110 | a new frame yields exactly count slots, and the slot after them overflows |
| Layouts.SpanGap | src/layout.c:120-135 | consecutive slots are separated by exactly the gap |
| Layouts.SpanEnds | src/layout.c:120-135 | the first slot starts at the frame's start and, for two or more slots, the last ends at the frame's end |
| Layouts.SpanSingle | src/layout.c:125-126 | a frame of one slot gives that slot the width minus half the gap |
| Layouts.FrameTiles | src/layout.c:120-152 | for two or more slots, the slots of a frame tile its axis from end to end with exactly the gap between neighbours and keep its extent across the axis |
| Layouts.StackPush | src/layout.c:162-165 | the stack gains a new frame at slot 0 on top |
| Layouts.StackPop | src/layout.c:167-170 | the top frame is dropped from a non-empty stack |
| Layouts.StackSlotLoc | src/layout.c:172-175 | the slot comes from the top frame only, whose index advances; on overflow the error is returned and the stack is unchanged |
| Layouts.Drawing | src/layout.h:7-9 | a drawing block taking n slots succeeds exactly when n <= count, gets the frame's first n slots, and leaves the stack as it found it |
| XmlTree.CStr | src/xml.c:76-78 | a copied C string is the part of the characters before the first NUL |
| XmlTree.CStrNoNul | src/xml.c:76-78 | characters without a NUL are copied unchanged |
| XmlTree.AddChild | src/xml.c:9-18 | `xml_node_new(parent)`: the new node is the last child of its parent, and the tag, text and attributes of the parent stay |
| XmlTree.AddChildSubtree | src/xml.c:9-18 | adding a child adds its subtree, and the nodes it holds with any tag, to the parent's subtree |
| XmlTree.DocInit | src/xml.c:345-350 | a new document's root has the given tag, no text, no attributes and no children |
| XmlTree.InsertNode | src/xml.c:352-356 | `xml_insert_node` as written; no contract of its own, stated by `InsertNodeCounts` |
| XmlTree.InsertNodeCounts | src/xml.c:352-356 | inserting a node keeps the earlier children and adds exactly one node with its tag to the subtree |
| XmlTree.KeyIndex | src/xml.c:365-372 | the index of the first attribute with the key, or the count of attributes when there is none |
| XmlTree.AttribGetValue | src/xml.c:365-372 | the lookup finds nothing exactly when no attribute has the key, and otherwise gives the value of the first attribute that has it |
| XmlTree.AttribAdd | src/xml.c:358-363 | `xml_attrib_add` as written, appending; no contract of its own, stated by `AttribAddKeepsFirst` |
| XmlTree.AttribAddKeepsFirst | src/xml.c:358-363 | adding an attribute appends it: a key already present keeps its first value, and a new key becomes visible |
| XmlTree.Named | src/xml.c:320-339 | the selected nodes all have the requested tag |
| XmlTree.NamedCount | src/xml.c:320-339 | every node with the tag is selected as many times as it occurs, and no other node is selected |
| XmlTree.FirstPath | src/xml.c:311-318 | the path from a node down through the first child at each level, ending at a leaf |
| XmlTree.FindTag | src/xml.c:311-318 | `xml_node_find_tag` as written, descending into the first child only; no contract of its own, stated by `FindTagOnPath` |
| XmlTree.FindTagOnPath | src/xml.c:311-318 | `xml_node_find_tag` returns the first node on the first-child path with the tag, or the path's last node when none has it |
| XmlTree.FindTags | src/xml.c:320-339 | the explicit-stack search returns every node of the subtree with the tag, each exactly once |
| XmlTree.LastDot | src/xml.c:374-379 | the position of the name's last '.', or none |
| XmlTree.CheckXmlExt | src/xml.c:374-379 | `check_xml_ext` as written with `strrchr`; no contract of its own, stated by `CheckXmlExtIff` |
| XmlTree.CheckXmlExtIff | src/xml.c:374-379 | the extension check holds exactly when the name is longer than 4 characters and ends in ".xml", so the last '.' is not the first character |
| XmlWrite.Pad | src/xml.c:251 | the indentation is max(abs(width), 1) spaces |
| XmlWrite.KeptMembers | src/xml.c:257-260 | the writer keeps an attribute exactly when its value is not empty |
| XmlWrite.AttrsOutKept | src/xml.c:257-260 | the writer prints the kept attributes and nothing else |
| XmlWrite.Kept | src/xml.c:257-260 | the attributes the writer prints, in order; no contract of its own, stated by `KeptMembers` and `AttrsOutKept` |
| XmlWrite.AttrsOut | src/xml.c:255-261 | the writer's attribute loop; no contract of its own, stated by `AttrsOutKept` |
| XmlWrite.ChildOut | src/xml.c:248-278 | one child as `xml_node_out` prints it: empty-element tag, text between tags, or nested children; no contract of its own, stated with the loader by `XmlRoundTrip.RoundTrip` |
| XmlWrite.ChildrenOut | src/xml.c:247-280 | `xml_node_out`: the children in order; no contract of its own, stated by `XmlRoundTrip.RoundTrip` |
| XmlWrite.DocWrite | src/xml.c:290-300 | `xml_doc_write` as written, root closed with `<tag/>`; no contract of its own, stated by `XmlRoundTrip.RoundTrip` and `XmlRoundTrip.DocWriteGainsChild` |
| XmlWrite.DocWriteClosed | src/xml.c:290-300 | the writer with the root closed by `</tag>`; no contract of its own, stated by `XmlRoundTrip.RoundTripClosed` |
| XmlLoad.Find | src/xml.c:76-78 | the first position of a character from an index on, or an overrun when the buffer has none |
| XmlLoad.ParseAttrsFrom | src/xml.c:39-99 | the `parse_attrs` loop from an index; a start tag ends before the end of the buffer, and an inline tag always has a tag; its paths are stated by the `XmlLoadFacts` and `XmlRoundTrip` lemmas |
| XmlLoad.EndTag | src/xml.c:163-183 | the end-tag branch moves the index forward; its failures are stated by `CloseBeforeRoot`, `CloseAfterRoot` and `MismatchedClose` |
| XmlLoad.StartTagAt | src/xml.c:185-208 | the start-tag branch moves the index forward, skipping one more character after `/>`; stated by `InlineSiblingsLost` and `XmlRoundTrip.RoundTrip` |
| XmlLoad.Step | src/xml.c:147-215 | one pass of the scanning loop moves the index forward by at least one |
| XmlLoad.Close | src/xml.c:179-197 | `curr_node = curr_node->parent` on a value tree; no contract of its own, stated by `OpenAtEnd` and the round-trip lemmas |
| XmlLoad.Finish | src/xml.c:147-222 | the root when the loop reaches the NUL; no contract of its own, stated by `OpenAtEnd` |
| XmlLoad.Parse | src/xml.c:136-223 | `xml_load` on the file contents; no contract of its own, stated by `XmlLoad.Load` and the `XmlLoadFacts` and `XmlRoundTrip` lemmas |
| XmlLoad.Collapse | src/xml.c:218-221 | elements still open at the end fold into one root exactly when there are any |
| XmlLoad.ParseAttrs | src/xml.c:39-99 | the attribute loop gives what the attribute-scanning function gives |
| XmlLoad.ReadValue | src/xml.c:73-88 | the value read is the characters after the quote up to the next quote, or the read runs past the buffer |
| XmlLoad.CloseNode | src/xml.c:163-183 | the end-tag branch gives what the end-tag function gives |
| XmlLoad.OpenNode | src/xml.c:185-208 | the start-tag branch gives what the start-tag function gives |
| XmlLoad.Load | src/xml.c:136-223 | the scanning loop returns what the loader function `Parse` returns |
| XmlLoadFacts.TextBeforeRoot | src/xml.c:152-156 | non-space text before the first element fails the load |
| XmlLoadFacts.CloseBeforeRoot | src/xml.c:169-172 | a document that starts with an end tag fails the load with "already at the root" (the general case is `CloseNothingOpen`) |
| XmlLoadFacts.CloseNothingOpen | src/xml.c:163-172 | at any position, an end tag read while no element is open fails the load with "already at the root", whatever the document state |
| XmlLoadFacts.CloseAfterRoot | src/xml.c:169-172 | an end tag after an empty-element root fails the load |
| XmlLoadFacts.MismatchedClose | src/xml.c:174-177 | a root start tag followed at once by an end tag with a different name fails the load with "mismatched tags" (the general case is `MismatchAt`) |
| XmlLoadFacts.MismatchAt | src/xml.c:163-177 | at any position, an end tag whose name differs from the innermost open element fails the load with "mismatched tags", whatever the elements below it |
| XmlLoadFacts.OpenAtEnd | src/xml.c:147-216 | a root start tag and a child start tag, both left open at the end of the input, load successfully with the child under the root (the general case is `XmlRoundTrip.RunEnd` with `XmlLoad.Collapse`) |
| XmlLoadFacts.LaterTextWins | src/xml.c:152-160 | a later text run overwrites an earlier one as the element's text |
| XmlLoadFacts.ValueWithoutKey | src/xml.c:67-71 | an example: on `<a "v">` the keyless quoted value ends the tag, the load succeeds, and the root `a` has no attributes |
| XmlLoadFacts.InlineSiblingsLost | src/xml.c:196-201 | the character after an empty-element tag is skipped, so a directly following `<` is lost and the next tag is read as text |
| XmlRoundTrip.RunEnd | src/xml.c:147 | whatever the open elements and the document state, reaching the NUL with the lexer empty ends the loop successfully with the root `Finish` gives, so elements still open are folded into it by `Collapse` |
| XmlRoundTrip.NoSpaceChars | src/xml.c:210-214 | collected text keeps the non-space characters and nothing else |
| XmlRoundTrip.NormalizeAllLength | src/xml.c:273-276 | a written and reloaded child list has as many children as the original |
| XmlRoundTrip.RoundTrip | src/xml.c:247-300 | loading what the writer wrote gives the root's tag and non-empty attributes, the children recursively with whitespace-free non-empty texts in leaves, plus one extra empty child tagged like the root |
| XmlRoundTrip.DocWriteGainsChild | src/xml.c:300 | loading a written document gives one more child than the root had, an empty one tagged like the root |
| XmlRoundTrip.DocWriteLeafRoot | src/xml.c:282-305 | the root `a` with nothing in it is written as `<a>`, newline, `<a/>`, newline, and loads with a child `a` |
| XmlRoundTrip.RoundTripClosed | src/xml.c:247-300 | with the root closed by `</tag>`, loading the written document gives back the tree with whitespace-free texts and non-empty attributes, and nothing more |

## Left out

- Rendering, input polling, camera, zoom and the panel animation in `src/plug.c`, and `layout_item`: they only draw or read devices.
- The conversion of the mouse position to a cell: the edited cell is a parameter.
- TileMap.Plug.PlaceGround and TileMap.Plug.PlaceFunctional require 0 <= x and 0 <= y. The source checks only the upper bounds, and a negative index is undefined behaviour in C.
- BLOCK_BOX is not defined in the headers; it is taken as 32, the first functional id. `mouse_state` is not declared in `Plug` either; it is a field of `TileMap.Plug`, true after construction.
- File I/O: `xml_load` gets the file's contents as a string, and `xml_doc_write` returns its output as a string. `xml_get_filepaths` (directory listing and `mkdir`) and `xml_node_print` (debug output) are not modelled. An empty file makes `xml_load` fail, since `fread` returns 0 (src/xml.c:132-135); `XmlLoad.Parse` of the empty string gives no root instead, as that check belongs to the file reading.
- The fixed 1024-character lexer buffer of `xml_load` is unbounded in the model; a longer token is undefined behaviour in C.
- A read past the terminating NUL (an unterminated tag, quote or end tag, or an empty-element tag at the very end) is the error `Overrun`; in C it reads past the buffer.
- The XML tree is a value: parent pointers become a stack of open elements, and a node created after the root was closed, which no parent holds, is dropped rather than leaked.
- Memory management: `malloc`, `realloc`, `free`, `strdup`, `xml_node_free`, `xml_doc_free`, `array_delete`, the cleanup attribute, and the allocation-failure path of `array_grow`.
- DynArrays.DynArray: growing a NULL array aborts in C; the model's growing operations always have an array. Popping or clearing a NULL array (false or a no-op in C, since its size is 0) is not modelled: the pops and `Clear` are methods of a non-null object. `array_size` and `array_capacity` of NULL are modelled (`DynArrays.Size`, `DynArrays.Capacity`).
- DynArrays.DynArray.Last requires a non-empty array: `array_last` on an empty array reads before the buffer, which is undefined behaviour in C.
- Layouts.StackPop requires a non-empty stack: it stands for the `assert` of `layout_stack_pop` (src/layout.c:168), which aborts the program.
- Layouts.StackSlotLoc requires a non-empty stack: it stands for the `assert` of `layout_stack_slot_loc` (src/layout.c:173), which aborts the program.
- `size_t` widths and overflow are not modelled: sizes and capacities are unbounded naturals.
- Layouts: the `float` fields are modelled as `real`, so rounding is not modelled. The overflow exit of `layout_slot` is the error `Overflow`, which the drawing block returns instead of exiting. `layout_make_rec` is the `Rect` constructor itself.
- Layouts.Drawing models the body of a `LayoutDrawing` block as taking n slots in a row; any other drawing inside the block is not modelled.
- The level codec, the entity code, the physics stubs and the hot-reload table are not part of this model.

## Findings

| source | as written | input that shows it | evidently intended | confidence | as-written member | corrected member |
|---|---|---|---|---|---|---|
| src/xml.c:300 | `xml_doc_write` closes the root with `<%s/>`, an empty-element tag | a root `a` with no children is written as `<a>`, newline, `<a/>`, newline, and loads back as `a` with an extra child `a` | the closing tag `</%s>`, so the written document loads back as the same tree | not executed | XmlRoundTrip.DocWriteGainsChild | XmlRoundTrip.RoundTripClosed |

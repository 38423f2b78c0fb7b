# GameEngine world-state core in Dafny

This project models the in-memory core of a small C++/SDL 2D tile engine:

- **Actor store.** `Actors` is a structure-of-arrays container. Four parallel
  vectors (position, movement, kind, 32 attribute bits) share one index. Its
  operations are `Push`, the bounds-checked `Swap` and `Pop`.
- **World model.** `Model` owns the store and a list of observing views. It
  applies actions in order and pushes the store to every observer on
  `Notify`. It adds and removes actors.
- **View.** A view keeps a per-actor screen-rectangle cache, indexed in
  parallel with the store. It projects world positions (integer block plus
  fractional sub-block) into pixels.
- **Tile map.** `GameMap` has three flat tile-index layers (`IndexArray`,
  addressed by `x + y * stride`), one image table per layer, and a
  display window placed by an offset that `SetOffset`/`DeltaOffset` clamp.
  `LoadTestMap` sizes and fills a test grid. `Draw` enumerates the visible
  cells.
- **Config tree.** `ConfigObject` turns an XML node into a name, text data, an
  attribute map, ordered children and a name-to-index multimap.
  `ConfigFileInterface` builds these objects on demand and caches them by key.

The modules follow the source files:

| module | file | models |
|---|---|---|
| `Wrappers` | wrappers.dfy | `Option`, `Result`, `Outcome`; a thrown exception is a returned failure |
| `MachineInts` | machine_ints.dfy | `int`/`unsigned int` conversions; truncation toward zero |
| `SdlTypes` | sdl_types.dfy | `SDL_Rect`; image handles |
| `ActorStore` | actor_store.dfy | `Actors` (Model.h, Model.cpp) |
| `Views` | views.dfy | `View` (View.h, View.cpp) |
| `WorldModel` | world_model.dfy | `Model` (Model.h, Model.cpp) |
| `TileMap` | tile_map.dfy | `GameMap`, `IndexArray` (GameMap.h, GameMap.cpp) |
| `ConfigFile` | config_file.dfy | `ConfigObject`, `ConfigFileInterface` (ConfigFileInterface.h/.cpp) |

Every operation is a pure function on an immutable value. A mutating member
function returns the new object. An operation that can throw returns the
exception as a `Failure`/`Fail` value. Where the engine throws after it has
already changed some fields (`LoadTestMap`, an action in `Apply`), the
function returns the changed object alongside the failure.

Fixed-width arithmetic is written out where the engine mixes signed and
unsigned types. Map extents, display sizes and tile sizes are `u32`. Offsets
and tile indices are `i32`. `ToU32` and `ToI32` are the C++ conversions.
Floats (sub-block positions, view sub-offsets, movement) are exact `real`s.
`static_cast<int>` is the explicit `TruncToZero`.

Three behaviours of the code are easy to misread:

- **Projection rounding.** The sub-block term of a projection goes through
  `static_cast<int>`, which truncates toward zero, not down
  (`Views.TruncationIsTowardZero`).
- **Negative offsets.** `SetOffset` compares an `int` request with an
  `unsigned` maximum, so a negative request is set to the largest offset, not
  to zero (see Findings).
- **Removal partner.** `RemoveActor` swaps with `GetLength()`, not
  `GetLength() - 1` (see Findings).

## Model

| member | source | states |
|---|---|---|
| `ActorStore.NewActors` | Model.cpp:10-13 | a new store satisfies the parallel-length invariant and holds no actors |
| `ActorStore.Reserve` | Model.cpp:15-23 | reserving capacity leaves the store observably unchanged |
| `ActorStore.GetLength` | Model.h:40 | under the invariant, the counter equals the size of each of the four vectors |
| `ActorStore.Rows` | Model.h:72-75 | reads the store as one sequence of records, with record i made of element i of every vector |
| `ActorStore.Push` | Model.cpp:25-33 | length grows by one; the record view is the old records plus the new record; the invariant is kept |
| `ActorStore.Swap` | Model.cpp:35-48 | succeeds iff both indices are below the length; on success rows first and second trade places and every other row and the length are unchanged; otherwise out_of_range and nothing changes |
| `ActorStore.Pop` | Model.cpp:50-58 | on a non-empty store, removes exactly the last record of every vector and decrements the length |
| `ActorStore.SeqSwap` | Model.cpp:39-42 | an element exchange changes only the two positions and preserves the multiset of elements |
| `ActorStore.SwapPermutes` | Model.cpp:35-43 | a successful swap is the same exchange on the record view, so the records are permuted |
| `ActorStore.SwapSelfIsIdentity` | Model.cpp:35-43 | `Swap(i, i)` returns the store unchanged |
| `ActorStore.SwapInvolution` | Model.cpp:35-43 | swapping the same pair twice restores the store |
| `ActorStore.Step` | Model.cpp:25-58 | any single push, swap or pop that succeeds keeps the four vectors at the counter's length |
| `ActorStore.Run` | Model.cpp:25-58 | after any sequence of push/swap/pop that succeeds, all four vectors have the counter's length |
| `ActorStore.StepMatchesRows` | Model.h:72-75 | one operation on the parallel vectors succeeds, fails and yields the same records as on an array of records |
| `ActorStore.RunMatchesRows` | Model.h:72-75 | every sequence of operations on the parallel vectors agrees with the array-of-records reference, so index i names the same actor in all four vectors |
| `ActorStore.SwapPopRemoves` | Model.cpp:114-118 | swap with the last row and then pop leaves the old last row at the removed index and every other row in place |
| `ActorStore.SwapPopRemovesWhenInRange` | Model.cpp:114-118 | with the last row as partner, the swap succeeds iff the index is in range, and then the pop removes exactly that actor |
| `Views.NewView` | View.cpp:3-6 | a new view has the given block size and an empty screen cache |
| `Views.FreshViewProjection` | View.cpp:3-6 | a new view has origin (0,0) and no sub-offset, so it projects an actor to its truncated sub-block position plus block times block size |
| `Views.Project` | View.cpp:27-36 | one axis of `Views.WorldToScreen`, which applies it to x and y in the view's frame: the pixel coordinate minus the scaled block difference is the sub-block difference rounded toward zero: same sign, not larger in magnitude, less than one pixel away |
| `Views.OffsetMovesFrame` | View.cpp:8-14 | moving the frame by (dbx, dby) blocks and (dx, dy) sub-block shows every actor where the unmoved frame shows the actor moved back by the same amounts, so both the block origin and the sub-offset grow by the arguments |
| `Views.Offset` | View.cpp:8-14 | moving the frame leaves the screen cache and the block size untouched |
| `Views.OffsetIsCumulative` | View.cpp:8-14 | two offsets compose into one offset by the summed arguments; a zero offset is the identity |
| `Views.BlockShiftMovesByBlockSize` | View.cpp:27-36 | moving the block origin by +1 in x lowers every projected x by exactly the block size and leaves y unchanged |
| `Views.TransformExample` | View.cpp:27-36 | block (2,3), sub-block (5,5), origin (0,0), 32-pixel blocks give pixel (69,101) |
| `Views.TruncationIsTowardZero` | View.cpp:29-30 | a sub-block difference of -0.5 gives pixel 0, not -1 |
| `Views.AddActor` | View.cpp:38-48 | appends exactly one entry placed by the transform, sized by the actor's extent, with a null animation; earlier entries and the frame are unchanged |
| `Views.UpdateFrom` | View.cpp:19-23 | the loop from index i rewrites entries i up to the actor count with the projected position and keeps every other entry |
| `Views.UpdateView` | View.cpp:16-25 | every live actor's entry shows its current projected position; widths, heights, animations, entries past the actor count, the cache length and the frame are unchanged |
| `Views.UpdateViewIdempotent` | View.cpp:16-25 | a second update with the same actors changes nothing |
| `WorldModel.NewModel` | Model.cpp:60-65 | a new model has a valid empty store and no observers |
| `WorldModel.Attach` | Model.cpp:69-72 | appends the view even when it is already attached; the store is unchanged |
| `WorldModel.IndexOf` | Model.cpp:76 | finds the first occurrence: the element is there and not in any earlier position |
| `WorldModel.RemoveFirst` | Model.cpp:74-86 | an absent element leaves the list as it was; otherwise exactly its first occurrence is erased and the other elements keep their order |
| `WorldModel.Detach` | Model.cpp:74-86 | erases the first copy of an attached view, keeping the other observers in order, and is a no-op for a view that is not attached; the store is unchanged |
| `WorldModel.DetachUndoesAttach` | Model.cpp:69-86 | detaching a view right after its first attachment restores the observer list |
| `WorldModel.DuplicateAttachSurvivesDetach` | Model.cpp:69-86 | a view attached twice is still attached after one detach |
| `WorldModel.NotifyEach` | Model.cpp:88-94 | every listed view gets `UpdateView` from the store, a view listed twice ends as if updated once, and unlisted views are untouched |
| `WorldModel.Notify` | Model.cpp:88-94 | after notification every attached view is exactly `UpdateView` of its old state, so it is in sync with the store and keeps its frame, sizes, animations and cache length; other views are untouched |
| `WorldModel.Simulate` | Model.cpp:96-99 | the controller sees the store and the model comes back unchanged |
| `WorldModel.Apply` | Model.cpp:101-107 | applying actions never changes the observer list, and an empty batch changes nothing |
| `WorldModel.ApplyOne` | Model.cpp:103-106 | a one-action batch leaves the store as the action left it, and reports the action's exception iff it threw |
| `WorldModel.ThrowKeepsEarlierChanges` | Model.cpp:101-107 | an action that pushes an actor and then throws leaves the pushed actor in the store, with the store still valid, and the batch reports the exception |
| `WorldModel.ApplyConcat` | Model.cpp:101-107 | applying two batches in turn equals applying their concatenation, stopping at the first throw |
| `WorldModel.NotifyAfterApplyShowsResult` | Model.cpp:88-107 | after a batch and a notification every attached view shows the store as the batch left it |
| `WorldModel.AddActor` | Model.cpp:109-112 | the store gains exactly one record at the end and the observers are unchanged |
| `WorldModel.SwapThenPop` | Model.cpp:114-118 | swap-then-pop succeeds iff both indices are in range; a failure leaves the model unchanged with out_of_range; a success leaves the swapped records minus the last one |
| `WorldModel.RemoveActor` | Model.cpp:114-118 | as written, removal throws out_of_range for every index and leaves the model unchanged |
| `WorldModel.RemoveActorIntended` | Model.cpp:114-118 | removal with the last actor as partner succeeds iff the index is in range; it then shortens the store by one, moves the last actor into the hole and keeps every other actor in place |
| `WorldModel.RemoveActorDiscrepancy` | Model.cpp:116 | on a one-actor store, removal as written keeps one actor and the intended removal leaves none |
| `TileMap.EmptyIndexArray` | GameMap.cpp:242-243 | the default index array has no cells and stride 0 |
| `TileMap.NewIndexArray` | GameMap.cpp:245 | holds exactly width times height cells, all zero, with stride width |
| `TileMap.Set` | GameMap.cpp:261-264 | the addressed cell reads back the new index; every other buffer position, the length and the stride are unchanged |
| `TileMap.PointAt` | GameMap.cpp:271-275 | the pointer is inside the buffer iff the cell is, and then it addresses exactly the cell `At` reads and `Set` writes |
| `TileMap.FlatInjective` | GameMap.cpp:261-269 | two cells with columns in [0, stride) share a buffer position only if they are the same cell |
| `TileMap.SetThenAt` | GameMap.cpp:261-269 | characterises `TileMap.At` (`IndexArray::At`, GameMap.cpp:266-269) against `Set`: after `Set(x, y, v)`, `At` returns v at (x, y) and the old index at every other cell whose column is in range |
| `TileMap.NewGameMap` | GameMap.cpp:9-18 | the default map has all six sizes and both offsets zero, which satisfies the viewport invariant; all three layers have no cells and stride 0 and all three image tables are empty |
| `MachineInts.SubU32` | GameMap.cpp:197 | unsigned subtraction is exact when it does not underflow and wraps by 2^32 when it does |
| `MachineInts.NegativeAsUnsignedIsLarge` | GameMap.cpp:201 | a negative int converted to unsigned is at least 2^31 |
| `MachineInts.TruncToZero` | View.cpp:29-30 | the cast lies within one unit of its argument, on the side toward zero |
| `TileMap.ClampAxis` | GameMap.cpp:194-212 | when the display fits: the result is in [0, extent-display]; a request in range is kept; a request above the range gives the maximum; a negative request also gives the maximum |
| `TileMap.ZeroBranchUnreachable` | GameMap.cpp:201-208 | when the display fits, every negative request already passes the unsigned comparison, so the zero branch is dead |
| `TileMap.ClampWhenDisplayExceedsExtent` | GameMap.cpp:197-208 | when the display is wider than the extent the maximum wraps: a request of -1 yields -5 (extent 5, display 10), and -5 yields 0 through the zero branch |
| `TileMap.ClampAxisIntended` | GameMap.cpp:194-212 | the intended clamp keeps in-range requests, raises negatives to 0 and lowers large requests to the maximum |
| `TileMap.ClampIntendedMonotone` | GameMap.cpp:194-212 | the intended clamp is monotone in the request |
| `TileMap.ClampAsWrittenNotMonotone` | GameMap.cpp:201-208 | as written, the clamp sends -1 above where it sends 0 (5 and 0 on extent 10, display 5) |
| `TileMap.ClampsAgreeOnNonNegative` | GameMap.cpp:201-212 | the written and the intended clamp agree on every non-negative request |
| `TileMap.SetOffset` | GameMap.cpp:194-231 | only the two offsets change; each axis is `ClampAxis` of its own request, extent and display size; with a fitting viewport the result is valid, an in-range request is kept, and a negative or too-large request gives the largest offset |
| `TileMap.SetOffsetIdempotent` | GameMap.cpp:194-231 | re-setting the offset that `SetOffset` produced is a no-op |
| `TileMap.SetOffsetNegativeGoesToMax` | GameMap.cpp:201-225 | on a 10-wide map with a 5-wide display, a request of (-1,-1) gives (5,5), while the intended clamp gives (0,0) |
| `TileMap.SetOffsetIntended` | GameMap.cpp:194-231 | each axis is `ClampAxisIntended` of its own request: only the offsets change, they are always valid, an in-range request is kept, a negative request gives 0 and a too-large one the largest offset |
| `TileMap.DeltaOffset` | GameMap.cpp:233-240 | equals `SetOffset` at the current offset plus the delta, keeps the offset valid, and moves by exactly the delta when that stays in range |
| `TileMap.FillRow` | GameMap.cpp:141-144 | the inner loop stores draw `x + y*nx` in cell (x, y) for the remaining columns of row y and touches no other cell |
| `TileMap.FillRows` | GameMap.cpp:139-146 | the outer loop from row y fills every later buffer position with the draw of the same number and leaves earlier rows alone |
| `TileMap.FillStoresDrawsInOrder` | GameMap.cpp:139-146 | filling row by row, column by column puts draw number k at buffer position k |
| `TileMap.LoadTestMap` | GameMap.cpp:112-148 | extents and display become (nx, ny) and tiles 32×32; all layers get nx·ny cells; it fails iff no tile images are loaded, after the fields have changed; on success the base layer holds the draws in row order and every stored index is below the image count |
| `TileMap.ViewCell` | GameMap.cpp:186 | the unsigned counter plus the int offset, passed back as an int, equals their sum whenever the sum fits |
| `TileMap.PixelCoord` | GameMap.cpp:180-181 | the destination coordinate equals tile size times counter whenever the product fits an int |
| `TileMap.CellBlit` | GameMap.cpp:167-187 | the blit for display cell (kx, ky) uses the image named by grid cell (kx + x offset, ky + y offset), has a tile-sized source and destination, and is placed at (tile width·kx, tile height·ky), whenever these sums and products fit an `int` and no earlier blit was clipped (see Left out) |
| `TileMap.Column` | GameMap.cpp:177-190 | the inner loop emits one blit per display row of column kx, in order |
| `TileMap.Draw` | GameMap.cpp:165-192 | one blit per display cell, emitted column by column with the cell under (kx, ky) placed at (kx·tile width, ky·tile height) as long as no blit is clipped (see Left out); every blit uses a loaded image |
| `TileMap.DrawLayer` | GameMap.cpp:150-163 | each of the three draw calls emits, for every display cell, the `CellBlit` of its own layer's index array and its own image table |
| `TileMap.ValidViewportIsDrawable` | GameMap.cpp:165-192 | with a valid offset, an extent-sized layer and indices below the image count, every lookup `Draw` makes is inside the grid |
| `TileMap.TestMapIsDrawable` | GameMap.cpp:112-192 | a freshly generated test map at offset (0,0) succeeds and can be drawn |
| `TileMap.EndToEndScenario` | GameMap.cpp:150-231 | on a 10×10 map with a 5×5 display and three images, `SetOffset(8,8)` gives (5,5) and every tile blit uses one of the three images |
| `ConfigFile.AttributeMap` | ConfigFileInterface.cpp:173-177 | the attribute map's keys are exactly the node's attribute names |
| `ConfigFile.AttributeMapLastWins` | ConfigFileInterface.cpp:173-177 | a repeated attribute name maps to the value of its last occurrence |
| `ConfigFile.ByName` | ConfigFileInterface.cpp:179-187 | after n children the multimap holds n entries, exactly one (name, i) for each child i < n and nothing else |
| `ConfigFile.ByNameEntriesPointAtChildren` | ConfigFileInterface.cpp:185 | every multimap entry (name, i) has a child i of that name |
| `ConfigFile.ByNameListsEachChildOnce` | ConfigFileInterface.cpp:185 | each child index appears exactly once, under its own name |
| `ConfigFile.ByNameComplete` | ConfigFileInterface.cpp:179-187 | the completed loop leaves the multimap and the children consistent |
| `ConfigFile.ChildIndex` | ConfigFileInterface.cpp:179-187 | the multimap the children loop builds agrees with the children: every entry names a child of that name and every child is listed once |
| `ConfigFile.FromNode` | ConfigFileInterface.cpp:164-188 | copies name and value, builds the attribute map in document order, makes child i from child node i by the same construction, and leaves the name multimap consistent |
| `ConfigFile.RepeatedNamesKept` | ConfigFileInterface.h:81 | two children with the same name are both kept, each under its own index |
| `ConfigFile.GetAttribute` | ConfigFileInterface.cpp:190-193 | returns the stored value iff the key is present and throws out_of_range otherwise |
| `ConfigFile.SetAttribute` | ConfigFileInterface.cpp:195-198 | adds a missing key with the value and never overwrites an existing key; nothing else changes |
| `ConfigFile.SetThenGetAttribute` | ConfigFileInterface.cpp:190-198 | reading a key right after setting it gives the old value if the key was present, the new one otherwise |
| `ConfigFile.Parse` | ConfigFileInterface.cpp:146-162 | a document without a node throws "no root node"; otherwise the interface starts with an empty, coherent cache and is not modified |
| `ConfigFile.Open` | ConfigFileInterface.cpp:100-162 | as written: an unopenable file throws; a read that hit end of file (fewer characters than the length) is parsed; a read that did not, including a complete one, throws "Unable to read contents of config file." |
| `ConfigFile.OpenIntended` | ConfigFileInterface.cpp:125-135 | as the log messages describe: a read of every character is parsed, a short read throws |
| `ConfigFile.OpenDiscrepancy` | ConfigFileInterface.cpp:125-135 | for a well-formed document the two constructors agree on an unopenable file and give opposite verdicts on every read; a complete read throws as written |
| `ConfigFile.CompleteReadRejected` | ConfigFileInterface.cpp:125-135 | a five-character file read in full is rejected as written and accepted as intended |
| `ConfigFile.FirstNode` | ConfigFileInterface.cpp:63-70 | returns the first top-level node with the key's name, and none iff no node has that name |
| `ConfigFile.GetConfigObject` | ConfigFileInterface.cpp:30-61 | a hit returns the cached object and changes nothing; a miss builds the object from the first matching node and caches exactly that entry; the result is never null; filename, document and flag are unchanged; cache coherence is kept |
| `ConfigFile.GetConfigObjectStable` | ConfigFileInterface.cpp:39-60 | repeated calls with one key return the same object, and the second call changes nothing |
| `ConfigFile.GetConfigObjectGrowsCacheByAtMostOne` | ConfigFileInterface.h:44 | a lookup keeps every cached key and adds at most one entry |
| `ConfigFile.SetConfigValue` | ConfigFileInterface.cpp:77-86 | always throws "Function not implemented!" with the key and value, and leaves the interface, including `modified`, unchanged |
| `ConfigFile.InsertConfigValue` | ConfigFileInterface.cpp:88-98 | always throws "Function not implemented!" with the node's name and value, and leaves the interface unchanged |

## Left out

- Game.cpp and Rift.cpp are not part of this model. They hold SDL start-up,
  the window, the event loop and logger setup.
- ImageLibrary.cpp/.h and Animation.h are not part of this model. They are
  image-loading stubs and a plain data struct. An animation is an opaque
  identifier (`Views.AnimId`) and an image is `SdlTypes.ImageId`.
- `Action` and `Controller` are declared but never defined.
  `WorldModel.Apply` takes each action as an arbitrary function from a store
  to the store as the action leaves it and the exception it threw, if any.
  `WorldModel.Simulate` takes the controller as an arbitrary function of the
  store.
- File and library I/O is outside the model: reading the config file,
  rapidxml parsing, `LoadMap` (which applies `atoi` to attributes), both
  `LoadTileImages` overloads, SDL blits and `SDL_FreeSurface`. A parsed
  document is given as `ConfigFile.XmlNode` values. The outcome of reading
  the file is given as `ConfigFile.FileRead`: whether it opened, its length,
  how many characters were read and what they parsed into. A parse error
  thrown by the XML library is not modelled. A blit is returned as a
  `TileMap.Blit` value.
- `TileMap.LoadTestMap` takes the random engine's results as the `draws`
  parameter, each a valid image index. The engine's actual sequence is not
  modelled.
- Logging is left out throughout.
- Floats are modelled as exact reals, so float rounding in `Offset` and in
  the sub-block difference is not modelled.
- `Views.Project`: does not model 32-bit overflow of the block arithmetic,
  which is undefined behaviour for `int` in C++. The result is the
  mathematical value.
- `ActorStore.NewActors`: the engine never initialises `m_length`. The model
  starts it at zero.
- `ActorStore.Pop`: `pop_back` on an empty vector is undefined behaviour, so
  the model requires a non-empty store.
- `Views.UpdateView`: `operator[]` is unchecked, so the model requires the
  cache to cover every live actor.
- `ConfigFile.GetConfigObject`: a key with no node makes the `ConfigObject`
  constructor dereference a null pointer, so the model requires the key to be
  cached or present. The result is therefore never null, and the null checks
  after this call in `LoadMap` and the game set-up are dead.
- `TileMap.NewIndexArray` and `TileMap.LoadTestMap`: sizes whose product does
  not fit an `int`, or is negative, are excluded. Those sizes would overflow
  or fail to allocate.
- `TileMap.LoadTestMap`: with tile images loaded, no columns and at least one
  row, the log line after each row reads cell (0, y) of an empty buffer
  (GameMap.cpp:145), which is undefined behaviour, so the model requires
  `nx > 0` whenever `ny > 0`.
- `TileMap.EndToEndScenario`: no operation sets a 5×5 display on a 10×10
  map. `SetView` is declared but never defined, and `LoadTestMap` makes the
  display as large as the map. The scenario therefore starts from any map
  with those sizes.
- `TileMap.DeltaOffset`: an offset plus delta that overflows `int` is
  excluded as undefined behaviour.
- `TileMap.Draw`: the placement of each blit is not promised once a blit is
  clipped. The engine reuses one destination rectangle for every blit and
  recomputes its position from its own `w` and `h` (GameMap.cpp:170-181),
  and `SDL_BlitSurface` writes the clipped rectangle back into it. So the
  stated placement at (tile width·kx, tile height·ky) holds only while no
  blit is clipped: every image is at least tile-sized and the display lies
  inside the target surface. `TileMap.CellBlit` states the unclipped
  placement.
- `TileMap.Draw`: the index lookups and the image-table lookup are unchecked,
  so the model requires every visited cell to be in the grid and to name a
  loaded image (`Drawable`). `ValidViewportIsDrawable` shows that a valid
  viewport over an extent-sized layer meets this.
- Members declared without a definition are not modelled: `GameMap::GetOffset`,
  `GameMap::SetView`, `View::RemoveActor` and `ConfigObject::AddChild`. The
  trivial accessors (`GetName`, `GetData`, `GetChildren`, `GetFilename`) are
  the datatype fields.
- Access control is not expressible: `protected` and `friend` on
  `AddActor`/`RemoveActor` and on `SetAttribute`. Every model function is
  callable.
- `ConfigFile.ConfigObject`: the key order of `std::multimap` is not
  modelled. The multimap is the multiset of its entries.
- Allocation failure (`std::bad_alloc`) is not modelled.

## Findings

| source | as written | input that shows it | evidently intended | confidence | as-written member | corrected member |
|---|---|---|---|---|---|---|
| Model.cpp:116 | `RemoveActor` swaps `index` with `GetLength()`, which `Swap` always rejects, so it throws and never removes | a store with one actor, `RemoveActor(0)`: out_of_range, still one actor | swap with `GetLength() - 1`, then pop | high, not executed | `WorldModel.RemoveActor` | `WorldModel.RemoveActorIntended` |
| GameMap.cpp:201 | the `int` request is compared with the `unsigned` maximum, so a negative request becomes a huge value and is set to the maximum; whenever the display fits the extent and extent − display < 2^31, the zero branch at 205-208 (and 222-225) is dead | extent 10, display 5, `SetOffset(-1, -1)`: offset (5, 5) | a negative request is raised to 0: offset (0, 0) | high, not executed | `TileMap.SetOffsetNegativeGoesToMax` | `TileMap.SetOffsetIntended` |
| ConfigFileInterface.cpp:124-127 | the read counts as successful only when `eof()` is set, which `read` sets only when it ran out before `length` characters; a complete read throws | a five-character file holding `<a/>` and a newline, all five characters read: "Unable to read contents of config file." | a complete read is parsed and a short read throws, as the two log messages say | medium, not executed | `ConfigFile.CompleteReadRejected` | `ConfigFile.OpenIntended` |

# sw — a Dafny model of the wallpaper tool's core

`sw` sets desktop wallpapers under Hyprland. The repository holds three
generations of the tool, and this project models the core logic of each:

- **`sw`, the original command-line tool.** It has a flat JSON
  configuration, a JSON history manager and a one-path-per-line queue
  file. It keeps a systemd timer. The `config`, `favorite` and
  `history` commands work on these stores, and `WallpaperManager` picks,
  checks and records a wallpaper.
- **`sw_cli`, the transitional command-line tool.** It has its own
  history, queue and timer managers, and the same commands in a second
  copy (`cmds/history.py`, `cmds/favorite.py`).
- **`sw_cli` with `sw_lib` and `sw_daemon`, the library generation.**
  - `sw_lib` provides a nested configuration with built-in defaults and
    dotted keys, and an in-memory history.
  - On the `sw_cli` side: the queue manager, the wallpaper selector,
    the `*_cmd.py` commands, the colour and JSON pretty-printing helpers,
    and the socket client.
  - `sw_daemon` is the Wayland daemon. It covers the socket server, the
    compositor registry, the per-output handlers, the image renderer
    (cover, centre-crop, BGRA) and the daemon core that ties them
    together.

Every operation is a pure function from the state it reads to the state
it writes or the answer it gives. Three kinds of input become explicit
values:

- Files: the file's text, or the decoded JSON, or `None` when it could
  not be read.
- The clock: `now`.
- The random choice: a number `draw`, reduced modulo the candidates.

Python behaviours that matter are modelled once, in helper modules, and
used everywhere:

- `PyStr`: `strip`, ASCII `lower`, `split`, `join`, `int()`/`str()`.
- `PySeq`: negative indexing, slices, `del`, `list.remove`,
  `dict.fromkeys` de-duplication, `random.shuffle`.
- `Json`: JSON values, with dicts kept in insertion order.
- `QueueFile`: the queue file format.
- `Durations`: the duration wording.
- `HistorySelect`: the history listing and pruning shared by the three
  `history` commands.
- `FavoriteChange`: the favourites edit shared by the three `favorite`
  commands.

Each source file has its own module. `CliHistory` is
`sw_cli/core/history.py`, `SwHistory` is `sw/core/history.py`,
`DaemonCore` is `sw_daemon/app/core.py`, and so on.

Most operations are paired with a partner:

- a reader for every writer: the history file's `to_dict`/`from_dict`,
  the queue file, `repr`, `parse_val`/`str`, and reading durations back;
- an undo for every edit: favourites add/rm, `--append`/`--remove`,
  queue add/rm, config set/unset;
- an invariant: no repeats in history, keys unique in a dict, a valid
  daemon state;
- or a reference definition: the history listing's de-duplication
  against the first-occurrence definition, the socket client against the
  socket server.

## Model

| member | source | states |
|---|---|---|
| CliClient.Message | src/sw_cli/ipc/client.py:38 | what goes on the socket is the command followed by exactly one newline |
| CliClient.SetRequest | src/sw_cli/ipc/client.py:66-67 | `set_wallpaper` sends `SET `, the path and a newline |
| CliClient.Response | src/sw_cli/ipc/client.py:33-64 | a timeout, a refused connection and any other socket error raise the timeout, connection and base daemon errors; a reply is accepted exactly when it is not blank, and the answer is the stripped, non-empty reply |
| CliClient.SetWallpaper | src/sw_cli/ipc/client.py:66-70 | a transport error passes through; a reply is accepted exactly when it starts with `OK`, and is otherwise a protocol error carrying the reply |
| CliClient.ServerDecodesRequest | src/sw_cli/ipc/client.py:67 | the server parses the client's request for a non-blank path as a set command for the stripped path |
| CliClient.BlankPathUnknown | src/sw_cli/ipc/client.py:67 | a request for a blank path loses its separator to `strip`, and the server answers `Unknown command` |
| CliClient.OkAccepted | src/sw_cli/ipc/client.py:68-70 | the server's `OK\n` reaches the caller as `OK` |
| CliClient.Accepted | src/sw_cli/ipc/client.py:68-70 | any reply whose stripped text starts with `OK` is returned, stripped |
| CliClient.ErrorRefused | src/sw_cli/ipc/client.py:68-69 | every `ERROR: ` reply of the server is refused with a protocol error carrying the stripped reply |
| CliClient.OtherRefused | src/sw_cli/ipc/client.py:68-69 | a reply whose first character is neither blank nor `O` is refused |
| CliClient.RoundTrip | src/sw_cli/ipc/client.py:66-70 | client against server: when `set_image` returns, the client gets `OK`; when it raises, the client raises a protocol error carrying the server's `ERROR: ` line |
| DaemonSocket.Receive | src/sw_daemon/ipc/socket.py:61-68 | a failed read gives nothing; otherwise the stripped text, which `strip` leaves unchanged |
| DaemonSocket.Parse | src/sw_daemon/ipc/socket.py:55-59 | a set command exactly when the first four characters are `set ` in any case; the path is the stripped rest |
| DaemonSocket.ErrorReply | src/sw_daemon/ipc/socket.py:79-83 | the reply is `ERROR: `, the message and a newline |
| DaemonSocket.SetReply | src/sw_daemon/ipc/socket.py:70-77 | `OK\n` exactly when `set_image` returns; otherwise the error reply with the exception's message |
| DaemonSocket.HandleClient | src/sw_daemon/ipc/socket.py:50-59 | no reply exactly when the read failed or was blank; a set command gets the set reply, anything else `ERROR: Unknown command` |
| DaemonSocket.BlankGetsNoReply | src/sw_daemon/ipc/socket.py:52-53 | a blank request is not answered |
| DaemonSocket.StripAfterWord | src/sw_daemon/ipc/socket.py:63 | stripping a request that starts with a non-blank word only trims the right end of its tail |
| DaemonSocket.ParseSetRequest | src/sw_daemon/ipc/socket.py:55-56 | a request that starts with some casing of `set ` and has a non-blank tail parses to the stripped tail |
| DaemonSocket.HandleSetRequest | src/sw_daemon/ipc/socket.py:50-57 | such a request gets the set reply for the stripped tail |
| DaemonSocket.VerbAnyCase | src/sw_daemon/ipc/socket.py:55 | `SET`, `set` and every other casing of the verb set the wallpaper |
| DaemonSocket.BareSetUnknown | src/sw_daemon/ipc/socket.py:55-59 | `SET` followed only by blanks is answered `Unknown command`, because stripping removes the separator |
| DaemonSocket.ReplyShape | src/sw_daemon/ipc/socket.py:74-81 | every reply is `OK\n` or starts with `ERROR: `, and ends in a newline |
| DaemonRender.LoadImage | src/sw_daemon/render/wallpaper.py:17-30 | a file that does not decode leaves the renderer unchanged and re-raises; one that does becomes the source, and its size becomes the current size |
| DaemonRender.ScaledSize | src/sw_daemon/render/wallpaper.py:34-38 | both sides are scaled by the larger of the two ratios and floored; the result covers the target and meets it exactly on one side |
| DaemonRender.ExactSide | src/sw_daemon/render/wallpaper.py:36-38 | the side whose ratio wins is scaled exactly onto the target |
| DaemonRender.FloorSide | src/sw_daemon/render/wallpaper.py:36-38 | the other side, floored, still reaches its target |
| DaemonRender.CropBox | src/sw_daemon/render/wallpaper.py:45-48 | the crop box has the target's size, lies inside the scaled image and is centred to within one pixel |
| DaemonRender.ResizeAndCrop | src/sw_daemon/render/wallpaper.py:32-49 | the result has the target size, and each pixel is the resampled image's pixel at the crop box's offset |
| DaemonRender.ConvertToBgra | src/sw_daemon/render/wallpaper.py:51-55 | same size; every pixel has red and blue exchanged and green and alpha kept |
| DaemonRender.ConvertTwice | src/sw_daemon/render/wallpaper.py:51-55 | swapping the channels twice gives every pixel back |
| DaemonRender.Pixels | src/sw_daemon/render/wallpaper.py:54 | `tobytes` order: width times height pixels, row by row |
| DaemonRender.Serialise | src/sw_daemon/render/wallpaper.py:54 | four bytes per pixel, in channel order |
| DaemonRender.BgraBytes | src/sw_daemon/render/wallpaper.py:51-55 | byte `4k` to `4k+3` are pixel `k`'s blue, green, red and alpha |
| DaemonRender.Frame | src/sw_daemon/render/wallpaper.py:65-66 | a frame for a size is four bytes for each of its pixels |
| DaemonRender.BgraLength | src/sw_daemon/render/wallpaper.py:51-55 | the BGRA bytes of an image are four per pixel |
| DaemonRender.CopyToBuffer | src/sw_daemon/render/wallpaper.py:57-71 | `false` with the buffer untouched exactly when no image is loaded; otherwise the frame overwrites the start of the buffer and the rest is kept |
| DaemonRender.LoadThenCopy | src/sw_daemon/render/wallpaper.py:17-71 | after a successful load, the copy succeeds and writes that image's frame |
| DaemonOutput.Create | src/sw_daemon/compositor/output.py:9-32 | a new handler has a new surface with no buffer and no size; it asks for the surface, a background layer surface on its output, anchoring to all four edges, exclusive zone `-1` and a commit, in that order |
| DaemonOutput.Acknowledge | src/sw_daemon/compositor/output.py:36 | a configure event is acknowledged with its serial on the handler's own surface |
| DaemonOutput.Configured | src/sw_daemon/compositor/output.py:37-39 | after drawing, the handler keeps its output, holds the drawn surface and remembers the size; it counts as sized exactly when both sides are positive |
| DaemonOutput.RedrawSize | src/sw_daemon/compositor/output.py:41-44 | a redraw happens exactly when both remembered sides are positive, and at that size |
| DaemonOutput.Destroy | src/sw_daemon/compositor/output.py:46-49 | exactly two requests, both destroying this handler's surface and nothing else: the layer surface first, then the surface |
| DaemonRegistry.Bind | src/sw_daemon/compositor/register.py:18-25 | a bound proxy carries the global's name, interface and version |
| DaemonRegistry.OnGlobal | src/sw_daemon/compositor/register.py:17-25 | the compositor, shared-memory and layer-shell globals are bound into their own slots; outputs are appended; any other interface leaves the registry unchanged |
| DaemonRegistry.OnGlobalValid | src/sw_daemon/compositor/register.py:17-25 | every held proxy came from an earlier bind, and no two outputs share one; each announcement keeps this true |
| DaemonRegistry.Names | src/sw_daemon/compositor/register.py:15 | the global names of the bound outputs, position by position |
| DaemonRegistry.OutputNames | src/sw_daemon/compositor/register.py:24-25 | every announced output global is named among the announced outputs |
| DaemonRegistry.OutputsOnlyGrow | src/sw_daemon/compositor/register.py:24-25 | announcements never remove or reorder a bound output |
| DaemonRegistry.AnnouncedOutputs | src/sw_daemon/compositor/register.py:24-25 | after a run of announcements the outputs are those held before, then one per announced `wl_output`, in announcement order |
| DaemonRegistry.AnnounceValid | src/sw_daemon/compositor/register.py:17-25 | a run of announcements keeps the registry valid |
| DaemonCore.Start | src/sw_daemon/app/core.py:13-29 | without an image path the daemon has no image and no size; an image that does not decode makes construction raise; one that does sets the size; there are no handlers, no pool and no requests yet |
| DaemonCore.Zeros | src/sw_daemon/app/core.py:74 | a fresh buffer of `n` bytes holds only zeros |
| DaemonCore.CreateShmBuffer | src/sw_daemon/app/core.py:71-74 | the pool is created exactly when there was none; the buffer is new, has the asked size and four bytes per pixel; nothing else changes |
| DaemonCore.DrawWallpaper | src/sw_daemon/app/core.py:76-80 | without an image the memory is left as it was; with one the frame is copied to its start |
| DaemonCore.TakeBuffer | src/sw_daemon/app/core.py:86-88 | a surface that holds a buffer of this size keeps it and nothing changes; otherwise a new buffer of that size is taken from the pool |
| DaemonCore.RedrawSurface | src/sw_daemon/app/core.py:82-94 | a zero side draws nothing and sends nothing; otherwise the buffer holds the frame, and the surface is attached, damaged over the whole size and committed |
| DaemonCore.Configure | src/sw_daemon/compositor/output.py:34-39 | a configure event is acknowledged first; the handler's surface is redrawn at the new size, which it then remembers; other handlers are untouched and the state stays valid |
| DaemonCore.Redraw | src/sw_daemon/compositor/output.py:41-44 | an unsized handler changes nothing; a sized one has its surface redrawn at its size; the other handlers are untouched |
| DaemonCore.ConfigureThenRedrawReuses | src/sw_daemon/app/core.py:86-88 | a handler redrawn at the size it was configured with draws into the buffer it already has and allocates nothing |
| DaemonCore.DropBuffers | src/sw_daemon/app/core.py:108-112 | every surface loses its buffer and keeps its id |
| DaemonCore.RedrawFrom | src/sw_daemon/app/core.py:114-115 | every handler from the given index on is redrawn, and the ones before it are untouched |
| DaemonCore.RedrawFromStep | src/sw_daemon/app/core.py:114-115 | redrawing one handler, then the rest of the list, redraws every handler from that index on |
| DaemonCore.SetImage | src/sw_daemon/app/core.py:102-115 | an image that does not decode raises and nothing changes; otherwise the size becomes the image's, every sized output gets a new buffer holding the new frame, and the unsized ones keep no buffer |
| DaemonCore.Destroys | src/sw_daemon/app/core.py:45 | two destroy requests per removed handler, in handler order |
| DaemonCore.RemoveOutputByName | src/sw_daemon/app/core.py:40-48 | the handlers whose output's text is the name's text are destroyed in order, and the rest are kept in order |
| DaemonCore.RemoveDestroysOnlyLabelled | src/sw_daemon/app/core.py:40-48 | every request that removing an output logs destroys a surface of a handler whose output carries the removed name, and nothing else |
| DaemonCore.SplitLength | src/sw_daemon/app/core.py:42-47 | each handler is either destroyed or kept, never both |
| DaemonCore.RemoveUnknownName | src/sw_daemon/app/core.py:40-48 | removing a name no handler carries changes nothing |
| DaemonCore.Served | src/sw_daemon/app/core.py:54 | the outputs some handler serves |
| DaemonCore.AddHandlers | src/sw_daemon/app/core.py:56-67 | the loop only appends handlers and keeps the state valid |
| DaemonCore.AddedHandlers | src/sw_daemon/app/core.py:56-67 | every added handler serves a pending output that had no handler, and has no size and no buffer |
| DaemonCore.AddHandlersCovers | src/sw_daemon/app/core.py:56-67 | every pending output without a handler gets one |
| DaemonCore.AddNothing | src/sw_daemon/app/core.py:56-58 | when every pending output is served, nothing is added |
| DaemonCore.AssertInitialised | src/sw_daemon/app/core.py:50-69 | nothing happens until the three globals are bound; then each registry output without a handler gets one, and the handlers appended serve exactly the unserved registry outputs, in registry order |
| DaemonCore.AddHandlersInOrder | src/sw_daemon/app/core.py:54-67 | the loop appends one handler per pending output not already served, in the order of the pending outputs, and no others |
| DaemonCore.AssertInitialisedIdempotent | src/sw_daemon/app/core.py:96-100 | the event loop's repeated calls change nothing after the first |
| DaemonCore.RemovedOutputReturns | src/sw_daemon/app/core.py:36-69 | as written, an output that is removed but still held by the registry gets a new handler on the next turn of the loop |
| DaemonCore.ForgetOutput | src/sw_daemon/app/core.py:40-48 | removal that also drops the registry's proxies for the removed name and keeps every other proxy |
| DaemonCore.RemovedOutputStaysGone | src/sw_daemon/app/core.py:36-69 | with the registry forgetting the output too, no handler for it comes back |
| LibConfig.DefaultConfig | src/sw_lib/config/config.py:11-33 | the defaults are one object with the five sections `wallpaper`, `hyprlock`, `history`, `queue` and `daemon` |
| LibConfig.WalkSteps | src/sw_lib/config/config.py:78-87 | a dotted lookup that succeeds passes through a dict holding the next key at every step |
| LibConfig.Get | src/sw_lib/config/config.py:78-87 | a key that resolves gives its value; one that does not gives the default, or raises `Invalid config key` when the default is `None` |
| LibConfig.Set | src/sw_lib/config/config.py:89-96 | after `set`, the dotted key resolves to the value, with intermediate dicts created or replaced as needed |
| LibConfig.Unset | src/sw_lib/config/config.py:98-105 | after `unset` the key no longer resolves, and unsetting a key that does not resolve changes nothing |
| LibConfig.SetThenWalk | src/sw_lib/config/config.py:89-96 | setting a path and reading it back gives the value |
| LibConfig.UnsetThenWalk | src/sw_lib/config/config.py:98-105 | after unsetting a path, reading it gives nothing |
| LibConfig.UnsetAbsent | src/sw_lib/config/config.py:101-105 | unsetting a path that does not resolve leaves the document as it was |
| LibConfig.SetKeepsOthers | src/sw_lib/config/config.py:89-96 | `set` leaves every key that parts ways with the set one reading as before |
| LibConfig.UnsetKeepsOthers | src/sw_lib/config/config.py:98-105 | `unset` leaves every key that parts ways with the removed one reading as before |
| LibConfig.Merge | src/sw_lib/config/config.py:64-72 | a successful merge keeps exactly the base's keys |
| LibConfig.AcceptsFrame | src/sw_lib/config/config.py:64-72 | whether an override is accepted depends only on the base's values at the override's keys |
| LibConfig.MergeOkIffAccepts | src/sw_lib/config/config.py:64-72 | merging fails exactly when some key of the override, at any depth where both sides are dicts, is missing from the base |
| LibConfig.MergeStep | src/sw_lib/config/config.py:65-72 | a successful merge folds the first override entry into the base and then merges the rest |
| LibConfig.MergeKeepsUnnamed | src/sw_lib/config/config.py:64-72 | a key the override does not name keeps the base's value |
| LibConfig.MergeStoresOverride | src/sw_lib/config/config.py:69-72 | an override entry that is not a dict merged into a dict replaces the base's value |
| LibConfig.MergeStoresFirst | src/sw_lib/config/config.py:69-72 | the first override entry, when not merged dict into dict, is stored as given |
| LibConfig.LoadMerged | src/sw_lib/config/config.py:49-61 | no user file gives the defaults; an unreadable file or a non-object raises a load error; a loaded configuration has exactly the defaults' top-level keys |
| LibConfig.Nest | src/sw_lib/config/config.py:64-72 | the one-key document for a dotted key is well formed |
| LibConfig.MergeNest | src/sw_lib/config/config.py:64-72 | a one-key override along a path the defaults have is accepted and stored there |
| LibConfig.ValidKeyLoads | src/sw_lib/config/config.py:40-61 | a user file setting one valid dotted key to a non-dict value loads, and `get` then returns that value |
| LibConfig.PathList | src/sw_lib/config/config.py:168 | a list of strings gives those strings in order; any other item raises |
| LibConfig.ListSetting | src/sw_lib/config/config.py:164-168 | a missing list setting is empty; a value that is not a list raises `must be a list`; a list gives its strings |
| LibConfig.IntSetting | src/sw_lib/config/config.py:175-184 | a missing integer setting raises `Invalid config key`; otherwise the value goes through `int()` |
| LibConfig.WallpaperDir | src/sw_lib/config/config.py:193-198 | the directory is given exactly when the setting is a non-empty string |
| LibConfig.SocketPath | src/sw_lib/config/config.py:149-154 | the socket path is given exactly when `daemon.socket_path` is a non-empty string; an absent key is an invalid key |
| LibConfig.Favorites | src/sw_lib/config/config.py:163-168 | empty when `wallpaper.favorites` is not set; a non-list raises `must be a list`; a list gives its strings in order, and fails when an item is not a string |
| LibConfig.RecencyExclude | src/sw_lib/config/config.py:186-191 | empty when `wallpaper.recency.exclude` is not set; a non-list raises `must be a list`; a list gives its strings in order, and fails when an item is not a string |
| LibConfig.RecencyTimeout | src/sw_lib/config/config.py:182-184 | `Invalid config key` when `wallpaper.recency.timeout` is not set; otherwise the value as `int()` converts it, or the conversion's failure |
| LibConfig.HistoryLimit | src/sw_lib/config/config.py:174-176 | `Invalid config key` when `history.limit` is not set; otherwise the value as `int()` converts it, or the conversion's failure |
| LibConfig.PathSetting | src/sw_lib/config/config.py:170-180 | a path read without default: `Invalid config key` when nothing is stored, the text when a string is, and a path error for anything else |
| LibConfig.RequiredPath | src/sw_lib/config/config.py:156-161 | a required path: given exactly when a non-empty string is stored; nothing stored is `Invalid config key`, a falsy value `Missing required config key` |
| LibConfig.HyprlockConfig | src/sw_lib/config/config.py:156-161 | `hyprlock.config` is given exactly when it holds a non-empty string |
| LibConfig.HistoryFile | src/sw_lib/config/config.py:170-172 | `history.file` is given exactly when it holds a string; nothing stored is `Invalid config key` |
| LibConfig.QueueFile | src/sw_lib/config/config.py:178-180 | `queue.file` is given exactly when it holds a string; nothing stored is `Invalid config key` |
| LibConfig.DefaultsRead | src/sw_lib/config/config.py:11-33 | read from the built-in defaults, every accessor gives its default: no favourites or exclusions, a timeout of 28800, a limit of 500, `~/Pictures/Wallpapers`, `~/.config/hypr/hyprlock.conf` under the home directory, the two cache files and the socket `/tmp/sw-daemon.sock` |
| SwConfig.Load | src/sw/core/config.py:33-49 | the store loads exactly when the file exists, parses and holds an object, and then it is that object |
| SwConfig.Get | src/sw/core/config.py:51-55 | raises `Missing required config key` exactly when the key is absent and there is no default; a present key gives its stored value, even `null` |
| SwConfig.Set | src/sw/core/config.py:57-62 | refused exactly when the key is not one of the class's property names |
| SwConfig.SetThenGet | src/sw/core/config.py:51-62 | after a successful `set`, `get` returns the new value, and every other key reads as before |
| SwConfig.HyprpaperConfigFile | src/sw/core/config.py:90-93 | `~/.config/hypr/hyprpaper.conf` when absent, the stored text when it is a string, and otherwise a path error |
| SwConfig.HyprlockConfigFile | src/sw/core/config.py:95-98 | `~/.config/hypr/hyprlock.conf` when absent, the stored text when it is a string, and otherwise a path error |
| SwConfig.HistoryFile | src/sw/core/config.py:100-103 | `~/.cache/sw-history` when absent, the stored text when it is a string, and otherwise a path error |
| SwConfig.QueueFile | src/sw/core/config.py:114-117 | `~/.cache/sw-queue` when absent, the stored text when it is a string, and otherwise a path error |
| SwConfig.HistoryLimit | src/sw/core/config.py:105-112 | 500 when absent; a stored value must convert with `int()`, a stored `null` included, and otherwise raises `Invalid value` |
| SwConfig.RecencyTimeout | src/sw/core/config.py:119-126 | 3600 when absent; a stored value must convert with `int()`, and otherwise raises `Invalid value` |
| SwConfig.Favorites | src/sw/core/config.py:82-88 | empty when absent; a non-list raises `'favorites' must be a list`; a list gives its strings in order, and fails when an item is not a string |
| SwConfig.RecencyExclude | src/sw/core/config.py:128-134 | empty when absent; a non-list raises `'recency_exclude' must be a list`; a list gives its strings in order, and fails when an item is not a string |
| SwConfig.SetThenRead | src/sw/core/config.py:57-126 | a path or a number stored with `set` under a valid key is what the path and integer readers return |
| SwConfig.PathSetting | src/sw/core/config.py:90-117 | a path setting falls back to its default when absent, and is read exactly when it holds a string |
| SwConfig.IntSetting | src/sw/core/config.py:105-126 | an integer setting falls back to its default when absent; a present value must convert with `int()`, and otherwise raises `Invalid value` |
| SwConfig.PathListSetting | src/sw/core/config.py:82-88 | an absent list setting is empty; a value that is not a list raises `must be a list`; a list gives its strings in order |
| SwConfig.Strings | src/sw/core/config.py:88 | a list gives its strings exactly when every item is a string |
| SwConfig.WallpaperDir | src/sw/core/config.py:136-142 | the directory is given exactly when `wallpaper_dir` holds a non-empty string |
| SwConfig.SetHistoryLimit | src/sw/core/config.py:57-112 | a limit stored with `set` is what `history_limit` reads back |
| ConfigValues.ParseVal | src/sw_cli/cmds/config_cmd.py:15-23 | a word is stored as an integer when `int()` accepts it, and otherwise as the word stripped |
| ConfigValues.ParseValRoundTrip | src/sw_cli/cmds/config_cmd.py:15-23 | parsing is stable: writing the stored value back as text and parsing it again gives the same value |
| ConfigValues.ParseValInt | src/sw_cli/cmds/config_cmd.py:17-18 | the text of an integer is stored as that integer |
| ConfigValues.Words | src/sw_cli/cmds/config_cmd.py:33 | the command-line words as string items, in order |
| ConfigValues.Appended | src/sw_cli/cmds/config_cmd.py:33 | the appended list has no duplicates, holds every current item and every word, and nothing else |
| ConfigValues.AppendKeepsCurrent | src/sw_cli/cmds/config_cmd.py:33 | the de-duplicated current list comes first, in its order; a list without duplicates is kept as it is at the front |
| ConfigValues.AppendIdempotent | src/sw_cli/cmds/config_cmd.py:33 | appending the same words twice is appending them once |
| ConfigValues.AppendPresent | src/sw_cli/cmds/config_cmd.py:33 | appending words a duplicate-free list already holds leaves it unchanged |
| ConfigValues.Removed | src/sw_cli/cmds/config_cmd.py:38 | `--remove` keeps exactly the items that are not among the words, each as often as before, and every word as often as none |
| ConfigValues.RemoveIdempotent | src/sw_cli/cmds/config_cmd.py:38 | removing the same words twice is removing them once |
| ConfigValues.RemoveAbsentWords | src/sw_cli/cmds/config_cmd.py:38 | removing words the list does not hold leaves it unchanged |
| ConfigValues.RemovedInOrder | src/sw_cli/cmds/config_cmd.py:38 | the comprehension keeps the order: removing from two lists joined is joining what is kept of each |
| ConfigValues.AppendedTail | src/sw_cli/cmds/config_cmd.py:33 | after a duplicate-free list, `--append` adds the words the list did not hold, each once, in the order of their first appearance |
| ConfigValues.AppendedOrder | src/sw_cli/cmds/config_cmd.py:33 | `dict.fromkeys(current + values)` is the de-duplicated current list followed by the new words, each once, in order of first appearance |
| ConfigValues.AppendThenRemove | src/sw_cli/cmds/config_cmd.py:33-38 | appending new words and then removing them gives a duplicate-free list back |
| CliConfigCmd.IsListProperty | src/sw_cli/cmds/config_cmd.py:9-12 | a key the document lacks raises `Invalid config key`; otherwise the answer is true exactly when the stored value is a list |
| CliConfigCmd.UpdateListKey | src/sw_cli/cmds/config_cmd.py:26-43 | a value that is not a list is refused; otherwise the key then holds the appended, filtered or replacing list, `--append` taking precedence, and the action names which |
| CliConfigCmd.UpdateKeepsOthers | src/sw_cli/cmds/config_cmd.py:26-43 | an update leaves every key that parts ways with the updated one as it was |
| CliConfigCmd.SetConfig | src/sw_cli/cmds/config_cmd.py:87-114 | the key is stripped; an unknown key is a configuration error; a list key goes through `update_list_key`; any other key refuses the list flags and several values, and stores the one parsed value; on success every path outside the dotted key reads as before |
| CliConfigCmd.SetScalar | src/sw_cli/cmds/config_cmd.py:105-114 | the flags are refused first, then several values; a single value is stored as `parse_val` reads it, and every path outside the dotted key reads as before |
| CliConfigCmd.AppendTwice | src/sw_cli/cmds/config_cmd.py:94-98 | `config set --append` twice with the same words stores what the first one stored |
| CliConfigCmd.AppendThenRemoveRestores | src/sw_cli/cmds/config_cmd.py:94-100 | `--append` and then `--remove` of new words gives a duplicate-free list back |
| SwConfigCmd.IsListProperty | src/sw/cmds/config.py:15-20 | a list key is a property of the class typed as a list, so it is always a writable key |
| SwConfigCmd.UpdateListKey | src/sw/cmds/config.py:34-50 | a stored value that is not a list is refused first, a key that is no property next; otherwise the key holds the appended, filtered or replacing list and every other key is unchanged |
| SwConfigCmd.SetConfig | src/sw/cmds/config.py:96-127 | the key is stripped; a list property goes through `update_list_key`; any other key refuses the list flags, then several values, then names that are no property, and otherwise stores the one parsed value; on success every other key reads as before |
| SwConfigCmd.Unset | src/sw/cmds/config.py:138-150 | as written, `unset` is `set(key, None)`: only property names are accepted, and the key stays, holding `null` |
| SwConfigCmd.UnsetBreaksDefaults | src/sw/cmds/config.py:145 | after the `unset` as written, `history_limit` and `favorites` raise instead of giving their defaults 500 and `[]` |
| SwConfigCmd.UnsetKey | src/sw/cmds/config.py:138-150 | the `unset` its help text describes: after the same name check, the key is removed and every other key is kept |
| SwConfigCmd.UnsetKeyRestoresDefaults | src/sw/core/config.py:82-134 | after removing a key, `history_limit`, `recency_timeout`, `favorites` and `recency_exclude` give their defaults 500, 3600, `[]` and `[]` again |
| FavoriteChange.AddTo | src/sw_cli/cmds/favorite_cmd.py:53-58 | a path already present is noted as such and not added; otherwise it is appended |
| FavoriteChange.RemoveFrom | src/sw_cli/cmds/favorite_cmd.py:101-106 | a path not present is noted; otherwise its first occurrence goes: the items before it stay in place and the items after it move up by one |
| FavoriteChange.PopAt | src/sw_cli/cmds/favorite.py:97 | `pop(index)` reports the item at the index and removes exactly it: the items before stay in place, the items after move up by one |
| FavoriteChange.AddKeepsDistinct | src/sw_cli/cmds/favorite_cmd.py:53-57 | adding never creates a repeat |
| FavoriteChange.RemoveKeepsDistinct | src/sw_cli/cmds/favorite_cmd.py:101-103 | removing from a list without repeats takes the path out entirely |
| FavoriteChange.AddThenRemove | src/sw_cli/cmds/favorite_cmd.py:53-103 | removing a path just added gives the list back |
| FavoriteChange.RemoveThenAdd | src/sw_cli/cmds/favorite_cmd.py:53-103 | in a list without repeats, removing a path leaves the other paths in their order, and adding it back puts it at the end |
| CliFavoriteCmd.Current | src/sw_cli/cmds/favorite_cmd.py:49 | the current wallpaper is the newest history entry, resolved; an empty history is an error |
| CliFavoriteCmd.AddTarget | src/sw_cli/cmds/favorite_cmd.py:45-51 | no path means the current wallpaper; `@N` names the history entry `resolve_indexed_path` finds, and fails when it does; a plain path is taken as given; all resolved |
| CliFavoriteCmd.RmTarget | src/sw_cli/cmds/favorite_cmd.py:93-99 | as for `add`, except that `@N` counts into the favourites themselves |
| CliFavoriteCmd.Add | src/sw_cli/cmds/favorite_cmd.py:27-58 | as written, an empty favourites list ends the command with a message before anything is added; otherwise the command is `AddFavorite` |
| CliFavoriteCmd.FirstFavoriteRefused | src/sw_cli/cmds/favorite_cmd.py:41-43 | no path can ever become the first favourite, though adding it is what the command is for |
| CliFavoriteCmd.AddFavorite | src/sw_cli/cmds/favorite_cmd.py:45-58 | the named path is stored at the end unless it is there already; a failure to name one is passed on |
| CliFavoriteCmd.Rm | src/sw_cli/cmds/favorite_cmd.py:75-106 | an empty list ends the command; otherwise the named path's first occurrence is removed when present, the others keeping their order, and the path is noted as absent when not |
| CliFavoriteCmd.RmByIndex | src/sw_cli/cmds/favorite_cmd.py:93-104 | `rm @k` removes the k-th favourite, counting from one |
| CliFavoriteCmd.RmNamed | src/sw_cli/cmds/favorite_cmd.py:93-104 | any `@` text whose number is k removes the k-th favourite |
| CliFavoriteCmd.AddThenRmCurrent | src/sw_cli/cmds/favorite_cmd.py:27-106 | adding the current wallpaper and then removing it, with no path either time, gives the list back |
| CliFavorite.CurrentWallpaper | src/sw_cli/cmds/favorite.py:15-22 | the newest history entry's path, or an error on an empty history |
| CliFavorite.AddTarget | src/sw_cli/cmds/favorite.py:47-53 | no path means the current wallpaper; a text starting with `@`, even the current wallpaper's own path, is looked up in the history; anything else is taken as given |
| CliFavorite.HistoryTarget | src/sw_cli/cmds/favorite.py:50-53 | `@N` with a number that does not parse is a format error; otherwise Python index `N - 1` of the history, and out of range an index error |
| CliFavorite.EntryBefore | src/sw_cli/cmds/favorite.py:51-53 | `get_by_index(N - 1)` succeeds exactly for indices Python accepts, and gives that entry's path |
| CliFavorite.Add | src/sw_cli/cmds/favorite.py:41-64 | the resolved path is appended unless present; every failure to name a path ends the command |
| CliFavorite.AddAtZero | src/sw_cli/cmds/favorite.py:50-53 | `@0` names the current wallpaper, because `0 - 1` is Python's last index |
| CliFavorite.TargetAtZero | src/sw_cli/cmds/favorite.py:47-53 | `@0` and no path name the same entry |
| CliFavorite.TargetAt | src/sw_cli/cmds/favorite.py:50-53 | an in-range `@N` names history entry `N - 1` in Python's indexing |
| CliFavorite.AddAtNegative | src/sw_cli/cmds/favorite.py:50-53 | `@-k` names the wallpaper `k` places before the current one |
| CliFavorite.AddAt | src/sw_cli/cmds/favorite.py:50-64 | adding by an in-range `@N` adds that history entry |
| CliFavorite.RmIndexed | src/sw_cli/cmds/favorite.py:92-100 | `rm @N` pops favourite `N`, counting from one, after a range check; a bad number is a format error, and one out of range an index error |
| CliFavorite.Rm | src/sw_cli/cmds/favorite.py:79-111 | no path removes the current wallpaper, `@N` goes through the index, a plain path is resolved and removed when present |
| CliFavorite.AddThenRm | src/sw_cli/cmds/favorite.py:41-111 | adding a plain path and removing it by the same text gives the list back |
| SwFavorite.CurrentWallpaper | src/sw/cmds/favorite.py:14-21 | the newest history entry's path, or an error on an empty history |
| SwFavorite.HistoryAt | src/sw/cmds/favorite.py:49-56 | `@N` names Python index `N - 1` of the history; a bad number or an index out of range gives nothing |
| SwFavorite.Add | src/sw/cmds/favorite.py:39-67 | only an empty history with no path fails; a bad `@N` only prints `Invalid history index`; otherwise the resolved path is appended unless present |
| SwFavorite.RmIndexed | src/sw/cmds/favorite.py:86-98 | `rm @N` pops favourite `N`, counting from one; a bad or out-of-range number only prints `Invalid index` |
| SwFavorite.Rm | src/sw/cmds/favorite.py:73-108 | no path removes the current wallpaper, failing on an empty history; `@N` goes through the index; a plain path is resolved and removed when present |
| SwFavorite.AtZeroAsymmetry | src/sw/cmds/favorite.py:49-92 | `@0` means the newest history entry to `add` but is refused by `rm` |
| SwFavorite.AddThenRm | src/sw/cmds/favorite.py:39-108 | adding a plain path and removing it by the same text gives the list back |
| CliCommon.EntryAt | src/sw_cli/utils/common.py:101-106 | `@0` names nothing; a positive number counts from one at the front, a negative one from the back; past either end nothing |
| CliCommon.ResolveIndexedPath | src/sw_cli/utils/common.py:93-108 | succeeds exactly when the text after the marker is a number that names an entry, and gives that entry; every failure is the `ValueError` naming the index |
| CliCommon.IndexNumberOf | src/sw_cli/utils/common.py:100 | the number of `@` followed by `str(i)` is `i` |
| CliCommon.ResolveEveryEntry | src/sw_cli/utils/common.py:93-106 | entry `k` is named both by `@(k+1)` and by `@(k-len)` |
| CliCommon.ResolveEmpty | src/sw_cli/utils/common.py:93-108 | no index resolves against an empty list |
| CliCommon.PrettifyTime | src/sw_cli/utils/common.py:120-136 | `Invalid time` exactly for a negative time, `a moment` exactly for zero |
| CliCommon.SpellNotInvalid | src/sw_cli/utils/common.py:125-136 | the wording of a time is never `Invalid time` |
| CliCommon.PrettifyTimeRead | src/sw_cli/utils/common.py:120-136 | the wording of a non-negative time reads back as that time |
| CliCommon.PrettifyTimeInjective | src/sw_cli/utils/common.py:120-136 | different times get different wordings, except that every negative time gets `Invalid time` |
| Durations.Decompose | src/sw_cli/utils/common.py:125-126 | the two floor `divmod`s by 60 give hours, minutes and seconds that add back up to the time, with minutes and seconds below 60 |
| Durations.DecomposeUnique | src/sw_cli/utils/common.py:125-126 | that decomposition is the only one with minutes and seconds below 60 |
| Durations.Terms | src/sw_cli/utils/common.py:128-134 | only the non-zero parts are worded, hours first; none exactly for zero seconds |
| Durations.TermsValue | src/sw_cli/utils/common.py:128-134 | leaving out the zero parts loses no seconds |
| Durations.Piece | src/sw_cli/utils/common.py:130-134 | each piece starts with its number |
| Durations.Pieces | src/sw_cli/utils/common.py:128-134 | one piece per part, in order |
| Durations.Spell | src/sw_cli/utils/common.py:125-136 | the wording is `a moment` exactly for zero seconds |
| Durations.ReadSpell | src/sw_cli/utils/common.py:125-136 | reading the wording of a time gives that time back |
| Durations.SpellInjective | src/sw_cli/utils/common.py:125-136 | different times are never worded alike |
| Durations.ReadPhrase | src/sw_cli/utils/common.py:130-134 | a comma-free phrase of three or more words is no wording, since every piece is exactly a number and a unit |
| Durations.SpellNegative | src/sw/core/timer.py:173-192 | the older copy, which does not refuse negative times, words them with negative hours first |
| Durations.ReadInvalidTime | src/sw_cli/utils/common.py:122-123 | `Invalid time`, the refusal of a negative time, is no wording |
| Durations.ReadTimerAnswers | src/sw_cli/core/timer.py:120-144 | the timers' other answers, `Timer is not active` and `Timer expired recently`, are no wordings |
| CliTimer.Enable | src/sw_cli/core/timer.py:95-102 | the answer is `Timer enabled` exactly when enabling and starting go through, and `TimerStatusError` otherwise |
| CliTimer.Disable | src/sw_cli/core/timer.py:104-111 | the answer is `Timer disabled` exactly when stopping and disabling go through, and `TimerStatusError` otherwise |
| CliTimer.Toggle | src/sw_cli/core/timer.py:113-118 | an active timer is disabled and any other is enabled; every failure, the state query's included, becomes `TimerToggleError` |
| CliTimer.ToggleFlips | src/sw_cli/core/timer.py:113-118 | toggling a truly reported timer flips it, and toggling twice restores it |
| CliTimer.PrettifyTime | src/sw_cli/core/timer.py:150-166 | `Invalid time` exactly for a negative time, `a moment` exactly for zero |
| CliTimer.PrettifyTimeRead | src/sw_cli/core/timer.py:150-166 | the wording of a non-negative time reads back as that time |
| CliTimer.TimeLeft | src/sw_cli/core/timer.py:120-144 | it fails, with `TimerStatusError`, exactly when the next elapse cannot be read |
| CliTimer.TimeLeftCases | src/sw_cli/core/timer.py:129-139 | `Timer is not active` exactly when no elapse is scheduled, `Timer expired recently` exactly when it is past |
| CliTimer.TimeLeftReadsBack | src/sw_cli/core/timer.py:133-139 | otherwise the answer reads back as the whole seconds left, rounded down |
| SwTimer.Enable | src/sw/core/timer.py:83-99 | `Timer enabled` exactly when enabling and starting go through, a `TimerError` otherwise |
| SwTimer.Disable | src/sw/core/timer.py:101-117 | `Timer disabled` exactly when stopping and disabling go through, a `TimerError` otherwise |
| SwTimer.Toggle | src/sw/core/timer.py:119-133 | an active timer is disabled and any other is enabled; every failure becomes `Failed to toggle timer` |
| SwTimer.ToggleFlips | src/sw/core/timer.py:119-133 | toggling a truly reported timer flips it, and toggling twice restores it |
| SwTimer.PrettifyTime | src/sw/core/timer.py:173-192 | `a moment` exactly for zero; negative times are not refused |
| SwTimer.PrettifyTimeRead | src/sw/core/timer.py:173-192 | every time, negative ones included, is worded so that it reads back |
| SwTimer.PrettifyNegative | src/sw/core/timer.py:181-192 | a negative time is worded with a minus sign and never as `Invalid time` |
| SwTimer.TimeLeft | src/sw/core/timer.py:135-171 | a D-Bus failure, an unreadable `/proc/uptime` and a garbled one each give their own error, and only when an elapse is scheduled is the uptime read |
| SwTimer.NotActiveIgnoresUptime | src/sw/core/timer.py:152-153 | an unscheduled timer is reported whatever the uptime file holds |
| SwTimer.TimeLeftCases | src/sw/core/timer.py:152-168 | `Timer is not active` exactly when no elapse is scheduled, `Timer expired recently` exactly when it is past |
| SwTimer.TimeLeftReadsBack | src/sw/core/timer.py:162-168 | otherwise the answer reads back as the whole, non-negative seconds left, rounded down |
| CliStyle.SetColorMode | src/sw_cli/utils/style.py:10-13 | the mode is kept with no upper-case letter; the terminal and the styling library are untouched |
| CliStyle.ShouldColor | src/sw_cli/utils/style.py:16-21 | `always` colours, `never` does not, and any other mode follows whether stdout is a terminal |
| CliStyle.SetColorModeDecides | src/sw_cli/utils/style.py:10-21 | after setting a mode, colouring depends only on its lower-cased spelling, so `ALWAYS` and `Never` work |
| CliStyle.Style | src/sw_cli/utils/style.py:24-25 | without colour a text is printed as it is |
| CliStyle.PlainHelpers | src/sw_cli/utils/style.py:28-49 | without colour every colour helper leaves its text alone |
| CliStyle.PaintedHelpers | src/sw_cli/utils/style.py:28-49 | with colour each helper asks for its own foreground and boldness |
| CliStyle.FormatBoolean | src/sw_cli/utils/style.py:52-62 | `True` exactly for true and `False` exactly for false, green and red when coloured |
| CliStyle.FormatByValue | src/sw_cli/utils/style.py:65-80 | a value is red exactly when it is among the bad values, and green otherwise |
| CliStyle.ByValueMissingSet | src/sw_cli/utils/style.py:77-78 | a missing set of bad values is the empty set |
| CliStyle.FormatJsonLines | src/sw_cli/utils/style.py:83-126 | the printed text is the value's lines joined by newlines, with every level of nesting indented two more spaces |
| CliStyle.SplitFormatJson | src/sw_cli/utils/style.py:83-126 | when no string holds a line break, splitting the text at newlines gives exactly those lines back |
| CliStyle.FormatJsonIndented | src/sw_cli/utils/style.py:94-112 | no line comes out less indented than the value, and a dict or list closes on a line of its own indentation |
| CliStyle.FormatJson | src/sw_cli/utils/style.py:94-112 | a dict prints between `{` plus a newline and a newline, the current indentation and `}`; a list likewise between `[` and `]` |
| CliStyle.PlainScalars | src/sw_cli/utils/style.py:114-124 | a scalar prints as its plain text: a quoted string, `true`/`false`, `null`, or the number |
| CliStyle.PlainScalarInjective | src/sw_cli/utils/style.py:114-124 | different scalars never print alike |
| CliStyle.FlatObjectLines | src/sw_cli/utils/style.py:97-104 | a dict of scalars prints one `"key": value` line per entry, in order, each but the last followed by a comma |
| CliStyle.FlatArrayLines | src/sw_cli/utils/style.py:106-112 | a list of scalars prints one item per line, in order, each but the last followed by a comma |
| CliStyle.EmptyContainers | src/sw_cli/utils/style.py:104-112 | an empty dict or list keeps a blank line between its brackets |
| LibHistoryEntry.ToDict | src/sw_lib/history/data_structures.py:12-14 | the dict has exactly the keys `path` and `time`, in that order, holding the entry's path and time |
| LibHistoryEntry.FromDict | src/sw_lib/history/data_structures.py:17-19 | an entry is read only from a dict whose `path` and `time` hold it; a dict without `path` fails on that key |
| LibHistoryEntry.FromToDict | src/sw_lib/history/data_structures.py:12-19 | reading back what `to_dict` wrote gives the same entry |
| LibHistoryEntry.ToFromDict | src/sw_lib/history/data_structures.py:12-19 | a readable record holding only `path` and `time` is the dict of the entry it reads as |
| LibHistoryEntry.Repr | src/sw_lib/history/data_structures.py:21-23 | the text starts with `<HistoryEntry path=` and ends with `>` |
| LibHistoryEntry.ReprInjective | src/sw_lib/history/data_structures.py:21-23 | different entries never print alike, even when a path itself holds ` time=` |
| LibHistory.Saved | src/sw_lib/history/manager.py:45-50 | the written list has one record per entry |
| LibHistory.SavedReadsBack | src/sw_lib/history/manager.py:34-58 | every record of the written list reads back as its entry |
| LibHistory.Get | src/sw_lib/history/manager.py:52-62 | an entry exactly for an index in `-len .. len-1`, counted from the end when negative; `None` otherwise |
| LibHistory.GetAll | src/sw_lib/history/manager.py:54-55 | with no index, every entry in order, each the one its index gets |
| LibHistory.Add | src/sw_lib/history/manager.py:64-71 | the new entry is appended and the result is the newest `limit` entries (`[-limit:]`, so `0` keeps all and a negative limit drops the oldest); with a positive limit the new entry is last |
| LibHistory.AddKeepsNewest | src/sw_lib/history/manager.py:64-71 | with a positive limit the new entry is last, at most `limit` entries remain, and the rest is the newest part of the old list |
| LibHistory.AddZeroLimit | src/sw_lib/history/manager.py:68 | a limit of zero keeps everything, since `[-0:]` is the whole list |
| LibHistory.RecentEntries | src/sw_lib/history/manager.py:73-80 | exactly the entries whose age is below the timeout |
| LibHistory.RemoveAll | src/sw_lib/history/manager.py:85-90 | the history is empty afterwards |
| LibHistory.RemoveByIndex | src/sw_lib/history/manager.py:92-99 | it fails with `HistoryEntryNotFoundError` exactly when `get` finds no entry there, and removes one entry otherwise |
| LibHistory.RemoveByIndexShifts | src/sw_lib/history/manager.py:92-99 | the entries before the removed one stay put and every later one moves down by one |
| LibHistory.RemoveNewest | src/sw_lib/history/manager.py:92-99 | index `-1` removes the newest entry, the one `get(-1)` returns |
| CliHistory.FromDict | src/sw_cli/core/history.py:44-47 | an entry is read only from a dict whose `path` and `time` hold it |
| CliHistory.ToDict | src/sw_cli/core/history.py:40-42 | the record is a dict with exactly the keys `path` and `time`, in that order, holding the entry's path and time |
| CliHistory.FromDicts | src/sw_cli/core/history.py:90 | a list reads exactly when every record does, one entry per record, in order |
| CliHistory.Read | src/sw_cli/core/history.py:75-94 | every failure, a document that is not a list included, is `HistoryReadError` |
| CliHistory.Write | src/sw_cli/core/history.py:96-112 | the written list holds each entry's dict, in order |
| CliHistory.FromToDict | src/sw_cli/core/history.py:40-47 | reading back what `to_dict` wrote gives the same entry |
| CliHistory.ReadWrite | src/sw_cli/core/history.py:75-112 | reading what `write` wrote gives the same entries |
| CliHistory.AddRepeat | src/sw_cli/core/history.py:114-133 | setting the newest wallpaper again leaves the history as it is, not even trimmed |
| CliHistory.Add | src/sw_cli/core/history.py:114-133 | a repeat of the newest path leaves the history untouched; otherwise the new entry is appended and the result is the newest `limit` entries (`[-limit:]`, so `0` keeps all and a negative limit drops the oldest); with a positive limit the new entry is last |
| CliHistory.AddNew | src/sw_cli/core/history.py:129-131 | a new path with a positive limit is last, at most `limit` entries remain, and the rest is the newest part of the old list |
| CliHistory.AddKeepsNoRepeats | src/sw_cli/core/history.py:114-133 | `add` never puts two entries for the same wallpaper next to each other |
| CliHistory.RemoveByIndex | src/sw_cli/core/history.py:135-152 | only `0 <= idx < len` is accepted, and then exactly that entry goes; a negative index is `HistoryIndexError` |
| CliHistory.RemoveAll | src/sw_cli/core/history.py:154-164 | the file afterwards reads as the empty history |
| CliHistory.RecentPaths | src/sw_cli/core/history.py:166-179 | exactly the paths of entries at or after the cutoff |
| CliHistory.AddedIsRecent | src/sw_cli/core/history.py:114-179 | a newly added wallpaper is recent for any non-negative timeout |
| CliHistory.RecentPathsMonotone | src/sw_cli/core/history.py:176-179 | a longer timeout never makes fewer paths recent |
| CliHistory.GetByIndex | src/sw_cli/core/history.py:181-199 | the path at a Python index exactly when it is in range, counted from the end when negative; `HistoryIndexError` otherwise |
| CliHistory.NegativeIndexAsymmetry | src/sw_cli/core/history.py:148-197 | `-1` reads the current wallpaper where removing it is refused |
| SwHistory.FromDict | src/sw/core/history.py:30-34 | an entry is read only from a dict whose `path` and `time` hold it |
| SwHistory.ToDict | src/sw/core/history.py:25-28 | the record is a dict with exactly the keys `path` and `time`, in that order, holding the entry's path and time |
| SwHistory.FromDicts | src/sw/core/history.py:76 | a list reads exactly when every record does, one entry per record, in order |
| SwHistory.Read | src/sw/core/history.py:65-78 | an unreadable file, a document that is not a list and a bad record all read as the empty history |
| SwHistory.Write | src/sw/core/history.py:80-98 | the written list holds each entry's dict, in order |
| SwHistory.FromToDict | src/sw/core/history.py:16-39 | reading back what `to_dict` wrote gives the same entry |
| SwHistory.ReadWrite | src/sw/core/history.py:65-98 | reading what `write` wrote gives the same entries |
| SwHistory.AddRepeat | src/sw/core/history.py:100-119 | setting the newest wallpaper again leaves the history as it is |
| SwHistory.Add | src/sw/core/history.py:100-119 | a repeat of the newest path leaves the history untouched; otherwise the new entry is appended and the result is the newest `limit` entries (`[-limit:]`, so `0` keeps all and a negative limit drops the oldest); with a positive limit the new entry is last |
| SwHistory.AddNew | src/sw/core/history.py:115-117 | a new path with a positive limit is last, at most `limit` entries remain, and the rest is the newest part of the old list |
| SwHistory.AddEndsWith | src/sw/core/history.py:100-119 | whether new or repeated, the added path is newest afterwards |
| SwHistory.RemoveByIndex | src/sw/core/history.py:121-140 | only `0 <= idx < len` is accepted, and then exactly that entry goes; anything else is `IndexError` |
| SwHistory.RemoveAll | src/sw/core/history.py:142-150 | the file afterwards reads as the empty history |
| SwHistory.RecentPaths | src/sw/core/history.py:152-162 | exactly the paths of entries at or after the cutoff |
| SwHistory.GetByIndex | src/sw/core/history.py:164-181 | the path at a Python index exactly when it is in range, counted from the end when negative; `IndexError` otherwise |
| HistorySelect.Enumerate | src/sw_cli/cmds/history_cmd.py:53-55 | pair `k` is entry `k` with its own position |
| HistorySelect.SelectLast | src/sw_cli/cmds/history.py:43-47 | the last `max(0, min(lines, len))` entries with their positions, or all of them without `lines` |
| HistorySelect.Listed | src/sw_cli/cmds/history.py:49-56 | only pairs of the selection, with their true positions, ascending; without `--unique` the selection itself; with it each of the selection's paths once, as its lowest-numbered pair |
| HistorySelect.Unique | src/sw_cli/cmds/history.py:49-56 | the `seen`-set loop keeps exactly the first pair of each path, in order |
| HistorySelect.FirstOccurrencesPaths | src/sw_cli/cmds/history.py:49-56 | that keeps only pairs of the selection, loses no path, and never repeats one |
| HistorySelect.FirstOccurrencesEarliest | src/sw_cli/cmds/history.py:49-56 | on numbered pairs it keeps them ascending, and each path as its lowest-numbered pair |
| HistorySelect.SinceFilter | src/sw_cli/cmds/history_cmd.py:102-104 | exactly the positions whose time is at or after the cutoff, in order; all of them without a cutoff |
| HistorySelect.FilterIncreasing | src/sw_cli/cmds/history_cmd.py:104 | a list comprehension keeps positions in increasing order |
| HistorySelect.FirstWith | src/sw_cli/cmds/history_cmd.py:106-110 | the first remaining position holding a path, absent exactly when none does |
| HistorySelect.EarliestByPath | src/sw_cli/cmds/history_cmd.py:106-110 | the reversed walk leaves each path mapped to its earliest remaining entry, with as many items as `remaining` exactly when no path repeats |
| HistorySelect.DistinctStep | src/sw_cli/cmds/history_cmd.py:106-110 | one more position in front keeps the paths distinct exactly when its path is new |
| HistorySelect.KeptSet | src/sw_cli/cmds/history_cmd.py:102-110 | a position is kept exactly when it passes `--since` and, with `--duplicates`, no earlier recent entry has its path |
| HistorySelect.FirstIsLowest | src/sw_cli/cmds/history_cmd.py:106-110 | the first position with a path is the lowest one |
| HistorySelect.LowestIsFirst | src/sw_cli/cmds/history_cmd.py:106-110 | and the lowest position with a path is the first one |
| HistorySelect.Filters | src/sw_cli/cmds/history_cmd.py:98-112 | the two filters in order keep exactly `KeptSet`, and `len(remaining)` is the full count exactly when everything is kept |
| HistorySelect.EarliestKept | src/sw_cli/cmds/history_cmd.py:106-110 | the entries left in `seen` are exactly those kept under `--duplicates` |
| HistorySelect.KeptEverything | src/sw_cli/cmds/history_cmd.py:106-112 | under `--duplicates` everything is kept exactly when every entry is recent and no path repeats |
| HistorySelect.DeleteUnkept | src/sw_cli/cmds/history_cmd.py:121-128 | the downward loop leaves exactly the kept entries and the newest one, in order, and reports the others' paths, highest position first |
| HistorySelect.SurvivorsKeepNewest | src/sw_cli/cmds/history_cmd.py:122-125 | the newest entry always survives and stays last |
| HistorySelect.SurvivorsKeepAll | src/sw_cli/cmds/history_cmd.py:123-128 | when everything is kept, nothing is removed |
| HistorySelect.DroppedEmpty | src/sw_cli/cmds/history_cmd.py:122-128 | the loop removes nothing exactly when every position but the last, which it skips, is kept |
| HistorySelect.OnlyNewestDroppedWritesNothing | src/sw_cli/cmds/history_cmd.py:122-133 | when the filters drop the newest entry alone, a confirmed removal writes nothing and reports no paths |
| HistorySelect.SurvivorsOrder | src/sw_cli/cmds/history_cmd.py:123-128 | what survives is a part of the list read, in order |
| CliHistoryCmd.Select | src/sw_cli/cmds/history_cmd.py:52-55 | a positive `lines` keeps the newest `lines` entries; `None` and `0` keep all; a negative one keeps `len + lines` |
| CliHistoryCmd.List | src/sw_cli/cmds/history_cmd.py:45-66 | only pairs of the selection, ascending, each with its true position; without `--unique` the selection itself; with `--unique` each of the selection's paths exactly once, as its lowest-numbered pair |
| CliHistoryCmd.NegativeLinesDropOldest | src/sw_cli/cmds/history_cmd.py:53 | `-n` drops the `n` oldest entries instead of listing the newest |
| CliHistoryCmd.RemoveByIndex | src/sw_cli/cmds/history_cmd.py:78-88 | an index outside `1 .. len` is reported before anything is asked; a declined prompt writes nothing; otherwise exactly that entry goes |
| CliHistoryCmd.RemoveAllEntries | src/sw_cli/cmds/history_cmd.py:91-95 | once confirmed the history is empty, and declined nothing is written |
| CliHistoryCmd.RemoveFiltered | src/sw_cli/cmds/history_cmd.py:98-133 | `No entries removed.` exactly when all is kept; a declined prompt writes nothing; otherwise the report names the paths of the filtered-out entries other than the newest, and the file is written exactly when that list is not empty, with the survivors ending in the newest entry; when only the newest entry is filtered out nothing is written and 0 entries are reported |
| CliHistoryCmd.NewestDuplicateWritesNothing | src/sw_cli/cmds/history_cmd.py:108-133 | `--duplicates` on `[a, b, a]` keeps the first two entries, so a confirmed removal writes nothing and reports 0 entries |
| CliHistoryCmd.Rm | src/sw_cli/cmds/history_cmd.py:151-175 | an empty history first, then `--index`, then `--all` without filters, then the filters (`RemoveFiltered`'s outcome, so a filter that drops only the newest entry writes nothing); with no option at all nothing is removed |
| CliHistoryCmds.List | src/sw_cli/cmds/history.py:30-63 | nothing is listed exactly when the history cannot be read; otherwise only pairs of the last `lines`, ascending, with their true positions; without `--unique` all of them; with `--unique` each of the selection's paths exactly once, as its lowest-numbered pair |
| CliHistoryCmds.RemoveIndexed | src/sw_cli/cmds/history.py:103-118 | an index outside `1 .. len` is reported before anything is asked; a declined prompt writes nothing; otherwise exactly that entry goes |
| CliHistoryCmds.Rm | src/sw_cli/cmds/history.py:85-169 | an unreadable history fails the command with `Failed to read history`; a readable one goes through `RmEntries`: an empty one is reported, `--index` removes that entry once confirmed, `--all` without filters clears everything once confirmed, and a filtered removal reports the filtered-out paths other than the newest, writes the file exactly when there is one, and then keeps the newest entry last |
| CliHistoryCmds.RmEntries | src/sw_cli/cmds/history.py:97-169 | `--index` first, `--all` only without filters, and otherwise `No entries removed.` exactly when all is kept, a declined prompt writes nothing, else the removed paths reported and the survivors written exactly when some entry other than the newest was removed |
| SwHistoryCmds.List | src/sw/cmds/history.py:28-58 | only pairs of the last `lines` of what `read` gave, ascending, with their true positions; without `--unique` all of them; with `--unique` each of the selection's paths exactly once, as its lowest-numbered pair |
| SwHistoryCmds.RemoveIndexed | src/sw/cmds/history.py:96-111 | an index outside `1 .. len` is reported before anything is asked; a declined prompt writes nothing; otherwise exactly that entry goes |
| SwHistoryCmds.Rm | src/sw/cmds/history.py:78-142 | `--index` first and `--all` only without filters; the filter branch writes nothing at all, reporting `No entries removed.` exactly when all is kept and otherwise only asking |
| QueueFile.KeepNonBlank | src/sw_cli/queue/manager.py:25 | only stripped, non-empty lines are kept, never more than there were |
| QueueFile.Terminated | src/sw_cli/queue/manager.py:72-73 | a newline after each item: empty exactly for no items, and otherwise ending in a newline |
| QueueFile.ReadClean | src/sw_cli/queue/manager.py:22-25 | every item read back is non-empty, stripped and free of newlines |
| QueueFile.ReadTerminated | src/sw_cli/queue/manager.py:22-75 | writing such items one per line and reading the file gives them back |
| QueueFile.JoinTerminated | src/sw_cli/core/queue.py:73-80 | `"\n".join(items) + "\n"` is the same text as a newline after each item |
| QueueFile.ReadNewline | src/sw_cli/queue/manager.py:14-20 | an empty file, and one holding a single newline, have no items |
| CliQueueManager.EnsureFile | src/sw_cli/queue/manager.py:14-20 | only a missing file that cannot be created fails, with `QueueWriteError`; a created file reads as the empty queue, and an existing one is left alone |
| CliQueueManager.Get | src/sw_cli/queue/manager.py:22-29 | a missing file is `QueueNotFoundError`, an unreadable one `QueueReadError`, and otherwise the clean lines |
| CliQueueManager.Write | src/sw_cli/queue/manager.py:69-75 | it fails, with `QueueWriteError`, exactly when the write does |
| CliQueueManager.WriteThenGet | src/sw_cli/queue/manager.py:22-75 | what `_write` stores, `get` returns |
| CliQueueManager.Add | src/sw_cli/queue/manager.py:31-39 | it succeeds exactly when the file reads and the write goes through; a missing file becomes the base `QueueError`, a read error passes through |
| CliQueueManager.Fresh | src/sw_cli/queue/manager.py:34 | exactly the given paths not queued yet, each as often as it was given: nothing else, and none of those left out |
| CliQueueManager.AddThenGet | src/sw_cli/queue/manager.py:31-39 | afterwards the queue is what it held followed by the new paths in argument order; it holds every added path, and nothing else |
| CliQueueManager.AddTwice | src/sw_cli/queue/manager.py:34 | adding the same paths twice stores the same file as adding them once |
| CliQueueManager.FreshCovered | src/sw_cli/queue/manager.py:34 | once the new paths are queued, none of them is new any more |
| CliQueueManager.FreshInOrder | src/sw_cli/queue/manager.py:34 | the new paths come in argument order: those of a first part before those of a second, a last new path last |
| CliQueueManager.Remove | src/sw_cli/queue/manager.py:41-49 | it succeeds exactly when the file reads and the write goes through, with the same error mapping as `add` |
| CliQueueManager.RemoveThenGet | src/sw_cli/queue/manager.py:41-49 | afterwards none of the paths is queued and the other items stay in their order, each as often as before |
| CliQueueManager.AddThenRemove | src/sw_cli/queue/manager.py:31-49 | removing paths just added, none queued before, restores the queue |
| CliQueueManager.Clear | src/sw_cli/queue/manager.py:51-57 | it fails exactly when the write does, and leaves a file that reads as the empty queue |
| CliQueueManager.Shuffle | src/sw_cli/queue/manager.py:59-67 | it succeeds exactly when the file reads and the write goes through |
| CliQueueManager.ShuffleThenGet | src/sw_cli/queue/manager.py:59-67 | the shuffled queue holds the same items, each as often |
| CliQueue.EnsureFile | src/sw_cli/core/queue.py:43-51 | only a missing file that cannot be created fails, with `QueueFileError`; a created file reads as the empty queue |
| CliQueue.ReadQueue | src/sw_cli/core/queue.py:53-71 | a missing file is `QueueFileMissingError`, an unreadable one `QueueFileError`, otherwise the clean lines |
| CliQueue.Write | src/sw_cli/core/queue.py:73-80 | it fails exactly when the write does, and no entries give an empty file |
| CliQueue.WriteThenRead | src/sw_cli/core/queue.py:53-80 | for clean entries the text is one entry per line, so `read` returns them |
| CliQueue.Resolved | src/sw_cli/core/queue.py:106-107 | each match of a pattern, resolved |
| CliQueue.Collect | src/sw_cli/core/queue.py:100-109 | the loop over the patterns fails exactly when some pattern matches nothing |
| CliQueue.CollectContents | src/sw_cli/core/queue.py:98-109 | otherwise the collected paths are exactly the resolved matches of the patterns |
| CliQueue.Listed | src/sw_cli/core/queue.py:111-115 | the list made from the set of matches, shuffled or not, holds each distinct match once |
| CliQueue.ListedContents | src/sw_cli/core/queue.py:111-115 | a path is listed exactly when it was matched |
| CliQueue.Add | src/sw_cli/core/queue.py:82-123 | no patterns, or a pattern matching nothing, is `InvalidPatternError`; after that every failure is `QueueFileError`; it succeeds exactly when all match and the file reads and is written |
| CliQueue.AppendAbsent | src/sw_cli/core/queue.py:119 | the combined list holds exactly the old and the new paths, growing by at most the new count, and by exactly it when none was queued |
| CliQueue.AddThenRead | src/sw_cli/core/queue.py:82-123 | afterwards the queue starts with what it held and holds exactly that and the matches; it grows by at most the count returned, and by exactly that when no match was queued |
| CliQueue.Rm | src/sw_cli/core/queue.py:125-154 | no patterns is `InvalidPatternError`, any other failure `QueueFileError`, and it succeeds exactly when the file reads and is written |
| CliQueue.RmThenRead | src/sw_cli/core/queue.py:140-152 | afterwards no entry matches a pattern, the entries that matched none stay in their order and with their copies, and the count is how many went |
| CliQueue.List | src/sw_cli/core/queue.py:156-170 | a non-empty queue is returned as read; a missing file is `QueueFileMissingError` and an empty queue `QueueEmptyError` |
| CliQueue.EmptyQueue | src/sw_cli/core/queue.py:172-175 | it fails exactly when the write does, and leaves an empty file |
| CliQueue.Shuffle | src/sw_cli/core/queue.py:177-190 | an empty queue is `QueueEmptyError` and a missing file `QueueFileError`; it succeeds exactly when a non-empty queue is read and written |
| CliQueue.ShuffleThenRead | src/sw_cli/core/queue.py:177-190 | shuffling neither loses nor adds an entry |
| SwQueue.EnsureFile | src/sw/core/queue.py:39-47 | only a missing file that cannot be created fails, with `QueueFileError`; a created file reads as the empty queue |
| SwQueue.ReadQueue | src/sw/core/queue.py:49-67 | a missing file is `QueueFileMissingError`, an unreadable one `QueueFileError`, otherwise the clean lines; `list` returns exactly this |
| SwQueue.Write | src/sw/core/queue.py:69-76 | it fails exactly when the write does, and the text always ends in a newline, even with no entries |
| SwQueue.WriteThenRead | src/sw/core/queue.py:49-76 | `read` returns the clean entries `_write` stored |
| SwQueue.AppendUnseen | src/sw/core/queue.py:104-107 | the collected list only grows, keeping what it held in front |
| SwQueue.AppendUnseenDedup | src/sw/core/queue.py:104-107 | the `not in` check keeps each path's first occurrence |
| SwQueue.Gather | src/sw/core/queue.py:96-110 | the loop over the patterns succeeds exactly when every pattern matches something |
| SwQueue.GatherIsDedup | src/sw/core/queue.py:94-110 | and then gathers every match once, in order of first match |
| SwQueue.Add | src/sw/core/queue.py:78-119 | no patterns, or a pattern matching nothing, is `InvalidPatternError`; after that every failure is `QueueFileError`; it succeeds exactly when all match and the file reads and is written |
| SwQueue.AddThenRead | src/sw/core/queue.py:112-117 | afterwards the old queue comes first, followed by every match once (in order of first match when not shuffled), so a match that was queued already is queued once more |
| SwQueue.RmLoop | src/sw/core/queue.py:137-141 | what is left is exactly the entries matching no pattern, never more than there were |
| SwQueue.AppendThenRead | src/sw/core/queue.py:115-117 | the file then reads as the old queue followed by the appended paths; a rearranged list of distinct paths adds each exactly once |
| SwQueue.RmLoopIsAny | src/sw/core/queue.py:140-141 | filtering by one pattern after another drops exactly the entries matching some pattern |
| SwQueue.Rm | src/sw/core/queue.py:121-145 | no patterns is `InvalidPatternError`, any other failure `QueueFileError`, and it succeeds exactly when the file reads and is written |
| SwQueue.RmThenRead | src/sw/core/queue.py:136-143 | afterwards no entry matches a pattern and the entries that matched none stay in their order and with their copies |
| SwQueue.EmptyQueue | src/sw/core/queue.py:152-155 | it fails exactly when the write does, and leaves a single newline, which reads as the empty queue |
| SwQueue.Shuffle | src/sw/core/queue.py:157-165 | every failure, a missing file included, is `QueueFileError`; an empty queue is shuffled without complaint |
| SwQueue.ShuffleThenRead | src/sw/core/queue.py:157-165 | shuffling neither loses nor adds an entry |
| FileHost.ExcludeDirs | src/sw_cli/wallpaper/selector.py:74 | each directory of the exclude list, resolved, in order |
| CliSelector.RecentPaths | src/sw_cli/wallpaper/selector.py:77-85 | exactly the resolved paths of recent entries younger than a non-zero timeout whose directory is not excluded |
| CliSelector.Candidates | src/sw_cli/wallpaper/selector.py:87-89 | exactly the directory's image files that are not recent |
| CliSelector.LoopTimeout | src/sw_cli/wallpaper/selector.py:79-83 | the configured timeout is consulted only when there is a recent entry |
| CliSelector.Pick | src/sw_cli/wallpaper/selector.py:64-99 | an invalid directory is `WallpaperDirectoryError`, a configuration failure the wrapped error; otherwise a wallpaper exactly when some candidate exists, and always a candidate, else `No suitable wallpapers found` |
| CliSelector.SelectOther | src/sw_cli/wallpaper/selector.py:36-57 | a given path is checked for existence, picked from when a directory, and checked for being an image; otherwise the queue's head is removed and then checked; an empty queue falls back to the configured directory |
| CliSelector.Select | src/sw_cli/wallpaper/selector.py:21-62 | with `use_dir` nothing is ever selected: an empty history has no current wallpaper, and any other ends in the wrapped `TypeError` |
| CliSelector.UseDirNeverSelects | src/sw_cli/wallpaper/selector.py:28-32 | even when the current wallpaper's directory holds nothing but images, `use_dir` fails where the intended selection succeeds |
| CliSelector.SelectIntended | src/sw_cli/wallpaper/selector.py:28-34 | `use_dir` picks from the directory of the newest history entry's path, and what it picks lies in that directory |
| CliSelector.EveryCandidateReachable | src/sw_cli/wallpaper/selector.py:94 | every candidate is chosen by some draw |
| CliSelector.ZeroTimeoutIgnoresRecency | src/sw_cli/wallpaper/selector.py:83 | a zero timeout switches recency off |
| CliSelector.ExcludedNeverRecent | src/sw_cli/wallpaper/selector.py:84-85 | a file whose directory is excluded is never held back |
| CliSelector.AgeAtTimeoutDoesNotBlock | src/sw_cli/wallpaper/selector.py:83 | an entry exactly `timeout` seconds old no longer blocks its file |
| CliSelector.QueueHeadDropped | src/sw_cli/wallpaper/selector.py:46-54 | the queue's head is taken off the queue even when it is then refused |
| SwWallpaper.RandomWallpaper | src/sw/core/wallpaper.py:117-152 | a configuration failure or a non-directory is an error; otherwise a file is returned exactly when some listed file is an image, is a file and is not recent (unless the directory is excluded from recency), and the returned one is such a file; else `No suitable wallpapers found` |
| SwWallpaper.Choose | src/sw/core/wallpaper.py:69-82 | a given directory is picked from, a given file taken as is; without a path the queue's head is taken and removed at once; an empty queue falls back to `wallpaper_dir`; every failure is one cause |
| SwWallpaper.SetWallpaper | src/sw/core/wallpaper.py:46-95 | a failed choice is `WallpaperError`, a non-image `InvalidImageError`, a failed history write `HistoryWriteError`; a set wallpaper is an image and is added to the history |
| SwWallpaper.SetByHistoryIndex | src/sw/core/wallpaper.py:97-115 | an index outside the history is `HistoryIndexError`; otherwise the path at that Python index is set as if it were given |
| SwWallpaper.SetRecordsNewest | src/sw/core/wallpaper.py:90-95 | a set wallpaper is the newest history entry |
| SwWallpaper.SetByIndexRecords | src/sw/core/wallpaper.py:110-115 | setting an image file from the history sets it, leaves the queue alone and makes it the newest entry |
| SwWallpaper.ExcludedDirIgnoresRecency | src/sw/core/wallpaper.py:133-147 | in a recency-excluded directory any image file is enough for a pick |
| SwWallpaper.RecentNeverPicked | src/sw/core/wallpaper.py:132-145 | outside excluded directories a recently shown file is never picked |
| SwWallpaper.QueueHeadDropped | src/sw/core/wallpaper.py:75-85 | the queue's head leaves the queue even when it is then refused as an image |

## Left out

- File, socket and process I/O are not modelled as effects: a file is its text, or its decoded JSON, or a failure, and a write is the text it would produce. `mkdir`, `touch`, `os.unlink`, `sendall` and closing sockets have no counterpart.
- `src/sw_cli/history` and `src/sw_cli/core/config.py` are not part of this model. The `sw_cli` commands that use them take the history as `sw_lib`'s history manager keeps it and the favourites list as loaded.
- Floating point is left out: the float branch of `parse_val`, float input to `prettify_time`, and the float division in the timers. The timers take `now` as whole microseconds, which is the truncation of uptime times one million.
- DaemonRender.ScaledSize: computes `int(s * scale)` in exact rational arithmetic. With floats the truncation can land one pixel short of the target, and the model does not show that.
- The Lanczos resampling and image decoding of PIL are parameters (`resample`, `decoded`), and so is `is_valid_image` (`Host.isImage`).
- `Path.resolve`, `expanduser`, `exists`, `is_dir`, `is_file`, `iterdir`, `glob.glob` and `Path.match` are uninterpreted functions of a `FileHost.Host` or explicit parameters where the selector, the queue managers and the favourite commands use them. The configuration accessors do not apply them (see the accessor lines below). `Path(...)` normalisation is not modelled: queue entries are compared as text, and `SwWallpaper.SetWallpaper` records the chosen path's text in the history where `src/sw/core/wallpaper.py:71,91` record `str(Path(path))`, which drops a trailing `/` and repeated separators.
- SwConfig.HyprpaperConfigFile, SwConfig.HyprlockConfigFile, SwConfig.HistoryFile, SwConfig.QueueFile, SwConfig.WallpaperDir and SwConfig.PathSetting return the stored text; the source returns `Path(text).expanduser().resolve()`, which has no counterpart here.
- SwConfig.Favorites, SwConfig.RecencyExclude and SwConfig.PathListSetting return the stored strings; the source returns each as `Path(f).expanduser().resolve()`.
- LibConfig.HyprlockConfig, LibConfig.SocketPath, LibConfig.HistoryFile, LibConfig.QueueFile, LibConfig.WallpaperDir, LibConfig.PathSetting and LibConfig.RequiredPath return the stored text; the source returns `Path(text).expanduser().absolute()`.
- LibConfig.Favorites, LibConfig.RecencyExclude and LibConfig.ListSetting return the stored strings; the source returns each as `Path(f).expanduser().absolute()`.
- LibConfig.SocketPath, LibConfig.HyprlockConfig, LibConfig.Favorites, LibConfig.HistoryFile, LibConfig.HistoryLimit, LibConfig.QueueFile, LibConfig.RecencyTimeout, LibConfig.RecencyExclude and LibConfig.WallpaperDir read the current data on every call. In the source they are `cached_property` values (src/sw_lib/config/config.py:149-198). `set` and `unset` call `_clear_cache` (lines 107-128), which pops underscore-prefixed names that `cached_property` never stores, so on the same `Config` instance an accessor read before `set` or `unset` keeps its old value. The model states what a freshly built `Config` reads; the commands build one per call.
- CliHistory.FromDict: reads only a record whose `path` is a string and whose `time` is an integer. Python's `from_dict` takes any values, so a record like `{"path": 5, "time": "x"}` reads there and fails here.
- SwHistory.FromDict: the same restriction to a string `path` and an integer `time`.
- LibHistoryEntry.FromDict: the same restriction to a string `path` and an integer `time`.
- CliHistory.Read: because of `CliHistory.FromDict`, a list with a record of some other type (a number for `path`, say) is a `HistoryReadError` here and a list of entries in the source.
- SwHistory.Read: because of `SwHistory.FromDict`, such a list reads as the empty history here and as a list of entries in the source.
- ConfigValues.Appended: removes duplicates by JSON value equality. `dict.fromkeys` hashes its items, so a list holding a list or a dict raises `TypeError`, and `1`, `1.0` and `true` count as one key.
- `random.shuffle` and `random.choice` are driven by draw numbers. Every permutation and every candidate is reachable, but the distribution is not modelled.
- Queue readers split on `\n` only. `splitlines()` and `for line in f` also break at `\r` and the other Unicode line separators.
- `PyStr.ParseInt`: accepts an optional sign and ASCII digits with surrounding whitespace; Python's `int()` also accepts `_` separators and non-ASCII digits.
- `PyStr.Strip` and `PyStr.Lower` cover ASCII whitespace and ASCII letters only, not Unicode.
- LibHistory keeps its history as raw JSON dicts; the model keeps typed entries, so malformed records that `get` would pass through or reject are not carried.
- `is_empty` of the `sw_lib` history manager is the predicate `LibHistory.IsEmpty`, defined as an empty sequence; it states nothing beyond its body and has no row.
- `get_all` of the `sw_lib` configuration returns a deep copy; Dafny values are immutable, so the copy is the data itself and is not modelled separately.
- The D-Bus systemd calls of both timer managers are parameters: whether the timer is active and the `NextElapseUSecMonotonic` value. `enable`, `disable` and `is_enabled` are modelled only as the action they pick.
- The `_update_configs` rewrite of the hyprpaper and hyprlock files, `replace_lines_in_file`, and the restart of hyprpaper are not modelled. `SetWallpaper` continues as if they succeed.
- `prettify_path`, `strip_ansi` and the status `prettify` work through `re` and are not modelled.
- `CliStyle.FormatJson` with colour on: the click styling is a `Painter` parameter, and only the colour-off text is stated exactly.
- The printed output of the `list` and `rm` commands is not modelled: `strftime` dates, colours, `log`, `warn` and `err`. An `err` ends the command, and the model returns the matching error value.
- `sw/core/queue.py` `list` returns the queue that `read` returns, so `SwQueue.ReadQueue` stands for both.
- The favourites `list` commands only print and are not modelled.
- `unset_config_cmd`, `get_config_cmd` and `show_config_cmd` of the `sw_cli` generation are thin wrappers over `LibConfig.Unset`, `LibConfig.Get` and `CliStyle.FormatJsonLines`.
- The `recv` buffer size and the UTF-8 decoding of socket data are not modelled. The server gets the decoded text of its single read.
- The socket thread, the Wayland event loop and their unlocked sharing of the daemon state are not modelled. Each call is atomic.
- The Wayland library, `SharedMemoryPool` and `ctypes.memmove` are records of requests and byte sequences. A fresh shared-memory buffer is taken to hold zeros.
- `core.on_global` calls `bind_output`, which `Registry` does not define. Only the registry's own `on_global` is modelled.
- `src/sw/core/wallpaper.py:15` imports `HistoryIndexError` and `HistoryWriteError` from `sw/core/history.py`, which defines neither. The module would fail to import; the model treats both names as the error classes they are used as.
- The selector calls `queue.remove([head])`, which drops every copy of the head. The model keeps that behaviour through `CliQueueManager.Remove`.
- Click argument parsing, the `next`, `prev`, `set`, `status`, `queue_cmd` and `timer_cmd` glue, and logging are not modelled.

## Findings

| source | as written | input that shows it | evidently intended | confidence | as-written member | corrected member |
|---|---|---|---|---|---|---|
| src/sw/cmds/config.py:145 | `unset` stores `None` under the key | `unset history_limit`, then read `history_limit` | the key is removed, so its default comes back | not executed | SwConfigCmd.UnsetBreaksDefaults | SwConfigCmd.UnsetKeyRestoresDefaults |
| src/sw_cli/cmds/favorite_cmd.py:41-43 | `add` returns when the favourites list is empty | `favorite add` with no favourites yet and a non-empty history | the path is added as the first favourite | not executed | CliFavoriteCmd.FirstFavoriteRefused | CliFavoriteCmd.AddFavorite |
| src/sw_cli/wallpaper/selector.py:29-31 | `Path(...)` is applied to a `HistoryEntry`, which raises `TypeError` | `use_dir` with any non-empty history | pick from the directory of the current wallpaper's path | not executed | CliSelector.UseDirNeverSelects | CliSelector.SelectIntended |
| src/sw_daemon/app/core.py:40-67 | a removed output stays in the registry's `outputs`, so `assert_initialised` gives it a new handler | an output is announced, removed by name, then `assert_initialised` runs | a removed output stays gone | not executed | DaemonCore.RemovedOutputReturns | DaemonCore.RemovedOutputStaysGone |

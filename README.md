# Collage server core, modelled in Dafny

The server (`main.py`, a Flask/SocketIO application) accepts image uploads,
keeps the uploaded images in a process-wide list with their upload times,
and in a background loop sleeps `COLLAGE_INTERVAL` (60) seconds, then
composes the images uploaded in the last 60 seconds into one A4 canvas of
2480 by 3508 pixels. Because the sleep follows the work of a round, rounds are
60 seconds plus that work apart. The layout depends
on the number of images: one fills the canvas, two share it as two columns,
three use two top cells and one full-width bottom cell, and four or more go
into a square grid of `ceil(sqrt(n))` cells per side, filled row by row in
arrival order. After each collage the scheduler prunes the list with the same
time window. A client that connects receives the tracked images, the latest
collage and a countdown of 60 seconds from the last collage; since rounds
are more than 60 seconds apart, it reaches 0 somewhat before the next
collage, and an upload made just after one round's read of the list and more
than 60 seconds before the next round's read is placed in no collage.

This project models that core:

- `text.dfy` (`Text`): `str.rfind`, ASCII lower-casing, POSIX
  `os.path.basename` and `os.path.join`.
- `upload.dfy` (`Upload`): `allowed_file`, the extension check on upload names.
- `images.dfy` (`Images`): the upload records, the time window
  `now - timestamp <= 60 s` as the function `Recent`, its properties, and the
  class `ImageStore` over the list `uploaded_images` with `Append`, `Window`
  and `Prune`.
- `geometry.dfy` (`Geometry`): the placement rectangles of every layout, the
  integer ceiling square root that replaces `np.ceil(np.sqrt(n))`, the
  tiling, in-canvas and non-overlap lemmas, and `Compose`, the pasting loop.
- `countdown.dfy` (`Countdown`): the `remaining_time` value sent on connect.
- `server.dfy` (`Server`): the class `CollageServer` holding the image store,
  `last_collage_time` and `recent_collage`, with the upload handler, the
  collage step, one round of the scheduler loop and the connect handler.
  Socket broadcasts are returned as `Event` values.
- `option.dfy` (`Options`): an `Option` type for Python's `None`.

Time is an integer number of microseconds (the resolution of `datetime`), so
the window comparison `current_time - timestamp <= timedelta(seconds=60)` is
exact. Every clock reading (`datetime.now()`), the generated upload name
(`uuid4()` plus the client's extension) and the collage file name
(`strftime`) are parameters of the methods.

## Model

| member | source | states |
|---|---|---|
| `Upload.Extension` | main.py:38 | `rsplit('.', 1)[1]`: absent exactly when the name has no dot; otherwise dot-free, and the name is some stem, a dot and it |
| `Upload.AllowedFile` | main.py:35-38 | a name without a dot is rejected; an accepted name has an extension whose lower-cased form is png, jpg, jpeg or gif |
| `Upload.AllowedFileOfSplit` | main.py:35-38 | for any stem and dot-free extension, `stem.ext` has extension `ext` and is accepted if and only if `ext` lower-cased is allowed |
| `Upload.SplitAtLastDot` | main.py:38 | every name containing a dot is such a stem, dot and dot-free extension, so the previous two rows decide every name |
| `Upload.AllowedFileIgnoresCase` | main.py:38 | lower-casing the whole name never changes the verdict |
| `Upload.AcceptsUpperCase` | main.py:35-38 | `cat.PNG` is accepted |
| `Upload.AcceptsLastExtension` | main.py:35-38 | `a.b.jpeg` is accepted: only the text after the last dot counts |
| `Upload.AllowedFileRejects` | main.py:35-38 | `png`, `photo.jpg.exe` and `photo.` are rejected |
| `Text.Lower` | main.py:38 | `.lower()` on ASCII: same length, every upper-case letter lowered, every other character kept |
| `Text.LastIndexOf` | main.py:38 | the last position of the character, -1 exactly when it does not occur |
| `Text.Basename` | main.py:219 | `os.path.basename`: the longest `/`-free suffix of the path |
| `Text.JoinPath` | main.py:207 | `os.path.join(UPLOAD_FOLDER, filename)`: the name is a suffix of the result, the folder a prefix unless the name is absolute, an absolute name replaces the folder, and a relative name after a folder not ending in `/` is joined with exactly one `/`; its agreement with `posixpath.join` for the stored names is carried by `Text.BasenameOfJoin` |
| `Text.BasenameOfJoin` | main.py:206-219 | joining the upload folder and a `/`-free name and taking the base name gives the name back |
| `Images.InWindow` | main.py:52 | the age test (also main.py:174): a record is inside exactly when it was uploaded no earlier than 60 s before `now`, records stamped after `now` included |
| `Images.Recent` | main.py:50-53 | the window has at most as many records as the store and each of them is inside the interval |
| `Images.RecentCounts` | main.py:50-53 | every record occurs in the window as often as in the store if it is inside the interval, and never otherwise |
| `Images.RecentMembers` | main.py:50-53 | a record is in the window if and only if it is in the store and inside the interval |
| `Images.RecentIsSubsequence` | main.py:50-53 | the window is an order-preserving subsequence of the store |
| `Images.RecentAppend` | main.py:211-214 | after appending a record the window is the old window followed by the record if it is inside the interval |
| `Images.RecentThenLater` | main.py:171-175 | pruning at one time and windowing at a later one equals windowing at the later one: pruning loses nothing a later collage would place |
| `Images.RecentIdempotent` | main.py:171-175 | pruning twice at the same time equals pruning once |
| `Images.RoundGapMissesUpload` | main.py:164-175 | a record appended after a round's window read and before its prune is not in that window, survives the prune (and is broadcast), and is outside the next round's window, read at least 60 s after the prune: it is placed in no collage |
| `Images.TrackedNames` | main.py:219 | the broadcast list `[os.path.basename(img['path']) ...]` (also main.py:153, 231): one `/`-free base name per record, in store order |
| `Images.TrackedNamesAppend` | main.py:211-219 | after an append the broadcast list is the old one followed by the new record's base name |
| `Images.ImageStore.constructor` | main.py:30 | the store starts empty |
| `Images.ImageStore.Append` | main.py:211-214 | the store grows by exactly the new record, placed last; earlier records are unchanged |
| `Images.ImageStore.Window` | main.py:50-53 | the loop returns the records inside the interval, in store order (`Recent`), changing nothing |
| `Images.ImageStore.Prune` | main.py:171-175 | the store becomes its own window at the given time |
| `Geometry.CeilSqrt` | main.py:125 | the result `g` satisfies `(g-1)^2 < n <= g^2` |
| `Geometry.CeilSqrtUnique` | main.py:125 | those two bounds determine `g`, so `CeilSqrt` is the ceiling of the square root |
| `Geometry.Layout` | main.py:76-139 | one rectangle per image, for every image count |
| `Geometry.LayoutOneTiles` | main.py:79-83 | one image gets the whole canvas, which it tiles |
| `Geometry.LayoutTwoTiles` | main.py:84-97 | two images get `(0, 0, W//2, H)` and `(W//2, 0, W - W//2, H)`, which tile the canvas without overlap |
| `Geometry.LayoutThreeTiles` | main.py:98-118 | three images get two top cells of height `H*2//3` and one full-width bottom cell, which tile the canvas without overlap |
| `Geometry.RowMajorOrder` | main.py:129-131 | a later index sits in a later row, or in the same row further right |
| `Geometry.GridCell` | main.py:126-137 | the cell of index `i` in a grid of side `g` measures `W//g` by `H//g` and lies on the canvas whenever `i < g^2` |
| `Geometry.GridCellsApart` | main.py:126-139 | grid cells of distinct indices do not overlap |
| `Geometry.GridCellInCanvas` | main.py:119-139 | for four or more images image `i` gets cell `(i%g * (W//g), i//g * (H//g))` with `g = CeilSqrt(n)`, inside the canvas |
| `Geometry.GridCellsDisjoint` | main.py:119-139 | for four or more images distinct images get disjoint cells |
| `Geometry.LayoutPacked` | main.py:76-139 | for every count all cells lie on the canvas and no two overlap |
| `Geometry.FiveImageGrid` | main.py:124-139 | five images on the A4 canvas give a 3 by 3 grid and the fifth image the cell `(826, 1169, 826, 1169)` |
| `Geometry.Compose` | main.py:77-139 | the pasting loop places image `i` of the window, by its path, in rectangle `i` of `Layout`, and places every image |
| `Countdown.RemainingTime` | main.py:233 | never negative; 0 when the interval has run out; otherwise the whole seconds left, truncated |
| `Countdown.RemainingTimeBounds` | main.py:233 | with the clock not running backwards the countdown lies in `[0, 60]` and is 60 only at the moment of the collage |
| `Countdown.RemainingTimeZero` | main.py:233 | the countdown is 0 exactly when less than one second of the interval is left |
| `Countdown.RemainingTimeElapsed` | main.py:233 | the countdown is 0 once the whole interval has passed |
| `Countdown.RemainingTimeMonotone` | main.py:233 | a later reading never shows more time left |
| `Server.CollageServer.constructor` | main.py:29-32 | no images, `last_collage_time` is the start time, no recent collage |
| `Server.CollageServer.UploadFile` | main.py:193-224 | missing file part, empty name and disallowed extension are rejected in that order and leave the store alone; an accepted upload appends one record with the joined path and the upload time and broadcasts every tracked name, the new one last |
| `Server.CollageServer.CreateDynamicCollage` | main.py:41-156 | the collage places exactly the window at `now`, in order, by `Layout`; the store is unchanged; `last_collage_time` and `recent_collage` become `now` and the name, also for an empty window; the broadcast lists all tracked images, or none when the window was empty |
| `Server.CollageServer.SchedulerRound` | main.py:160-175 | one round after the sleep: a collage of the window at the collage time, then the store pruned to its window at the second clock reading |
| `Server.CollageServer.HandleConnect` | main.py:227-234 | the initial state holds the tracked names, the recent collage and the countdown, which lies in `[0, 60]` when the clock has not run backwards |

## Left out

- The Flask routes `index`, `serve_upload` and `serve_collage`, template rendering, `send_from_directory` and `os.listdir`: HTTP and file plumbing.
- The SocketIO transport: `emit` and `socketio.emit` are not modelled; their payloads are returned as `Event` values.
- Pixel work through PIL: `Image.new`, `Image.open`, `ImageOps.fit` with LANCZOS (scale and centre-crop), `paste` and `save`. A collage is modelled as its canvas size and the list of (path, rectangle) placements on the white background.
- HTTP status codes: `Uploaded` stands for the answer with status 200 and `Rejected` for the answers with status 400; no number is modelled.
- Exceptions from PIL and the file system: in `main.py` a failing `Image.open` or `save` raises out of `create_dynamic_collage` before the two globals are updated, and in the scheduler thread it ends the loop. The model's methods always complete. `main.py` has no per-cell recovery for unreadable images, and the model adds none.
- `file.save` and the bytes of uploads: only the stored path is recorded.
- `Geometry.CeilSqrt`: stands for `int(np.ceil(np.sqrt(n)))` computed in floating point; the two agree for every count below 2^51, far beyond any number of uploads in one minute.
- `Countdown.RemainingTime`: computed on exact microseconds, not on the float `total_seconds()`; with microsecond timestamps the float result cannot cross a whole second, so truncation gives the same value.
- `Text.Lower`: lower-cases ASCII letters only. The one non-ASCII character whose lower case is ASCII is the Kelvin sign (to `k`), and no allowed extension contains `k`, so `Upload.AllowedFile` gives the same verdict as Python's `str.lower`.
- `Text.JoinPath` and `Text.Basename`: POSIX path rules only.
- The `file and ...` test in `upload_file`: a file part's truth value is that of its name, already known to be non-empty there, so the model leaves the test out.
- The stored name of an accepted upload: `allowed_file` accepts a name such as `.gif`, for which `os.path.splitext` finds no extension, so the file is saved without one; the stored name is a parameter here, so this is not captured.
- The generated upload name (`uuid4()` plus `os.path.splitext` of the client's name), every `datetime.now()` and the `strftime` collage name: these are nondeterministic or library calls, passed in as parameters.
- `Server.CollageServer.SchedulerRound`: models one round of the endless loop; `threading.Thread`, `time.sleep` and the daemon thread are left out, and each method is one atomic step. `main.py` has no locks, and the prune rebinds `uploaded_images` to a new list built from the old one, so an `append` to the old list made after the comprehension has read it is silently lost; the model does not capture this lost update.
- The return value of `create_dynamic_collage` (the collage name) is the `collageName` parameter and is not returned again.
- Two things `main.py` does not do, so the model does not either: it takes no lock around the shared list, and it leaves no blank cell for an image that cannot be decoded (the error propagates). After a failed open or save the scheduler thread ends, so the list is never pruned again and no further collage is made.

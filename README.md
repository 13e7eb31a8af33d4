# iamd: a verified model of the Archive.org music browser's core logic

`iamd.py` is an interactive terminal client for free music on Archive.org. It reads a
query, pages through the search results with the arrow keys, shows an item's audio
files, and downloads the one the user picks, or all of them. This project models the
four pieces of that program that are logic rather than I/O, and proves what the code
promises about them:

- **The audio-file classifier** (`get_audio_files`) is module `AudioFiles`. It keeps the
  files whose format is on the allow-list, whose source is `original` and whose name is
  non-empty. It then orders them with Python's stable sort by the key
  `(0 if 'MP3' in format else 1, size)`. The sort is modelled as a stable insertion
  sort. A uniqueness lemma shows that every sorted, stable arrangement is the same
  sequence, so the model returns whatever `list.sort` returns.
- **The selection prompt** (`choose_file_from_archive`) is module `Selection`, and the
  Python string operations it uses are in `Text`. Each input line is stripped and
  lower-cased. It then becomes cancel (`q`), download all (`all`), a pick by number,
  or a re-prompt. The prompt loop is a method proved against a function over the
  sequence of lines typed.
- **The viewport** is module `Viewport`. It holds the `MAX_LINES = 12` window, the
  offset recompute with minimal scrolling, and the visible slice.
- **The search session** of `main` is module `Browser`. Class `Session` holds `page`,
  `total`, `results`, `selected` and `offset`. Its methods are `LoadMore`, `Tick`
  (growth trigger plus scroll), `Press` (key dispatch), `Step` (one loop pass) and
  `Browse` (the loop). `Run` covers `main` from the query prompt on.

The search request is a function `fetch(query, page, rows)` passed to the session. A
session never asks for the same page twice, so one function can stand for any
sequence of server answers. A failed request is the answer `Response([], 0)`, which
is what `fetch_page` returns on failure. Every key press, every typed line and the
file listings are parameters.

Two behaviours of the code shape the contracts:

- The loaded count can exceed `total`. Only the growth trigger compares the two, so a
  server that sends more docs than it reports makes `results` longer than `total`.
  The model proves no such bound.
- A failed page still advances `page`, so that page is skipped for good.
  `Browser.FailedPageSkipped` states this.

## Model

| member | source | states |
|---|---|---|
| `AudioFiles.CandidatesFilter` | iamd.py:64-69 | every kept file has an allowed format, source `original` and a non-empty name; every such input file is kept, as often as it is listed; nothing is added (sub-multiset) |
| `AudioFiles.Mp3Family` | iamd.py:66-74 | on the allow-list, `'MP3' in format` holds exactly for "VBR MP3" and "MP3" |
| `AudioFiles.SortPermutation` | iamd.py:76 | the sort returns a permutation of its input |
| `AudioFiles.SortSorted` | iamd.py:71-76 | the sort orders files by the key `(rank, size)` lexicographically |
| `AudioFiles.SortStable` | iamd.py:76 | for every key, the files with that key keep their input order |
| `AudioFiles.SortedStableUnique` | iamd.py:76 | two sequences that are both key-sorted and agree on every key's order are equal, so any stable sort gives the same result |
| `AudioFiles.SortIsTheStableSort` | iamd.py:76 | any key-sorted, stable arrangement of the candidates is exactly `Sort`'s result |
| `AudioFiles.ClassifyContents` | iamd.py:63-79 | the result holds only original audio files of the listing; with well-formed sizes it is a permutation of the filtered listing; a size `int()` rejects makes the result empty |
| `AudioFiles.ClassifyOrder` | iamd.py:70-76 | MP3-family files precede all others; within a family sizes never decrease |
| `AudioFiles.ClassifyStable` | iamd.py:76 | files with equal keys appear in the order the listing gives them |
| `AudioFiles.ClassifyExample` | iamd.py:63-77 | a FLAC listed before a smaller MP3, plus a torrent descriptor, classify to [MP3, FLAC] |
| `Text.TrimStartShape` | iamd.py:121 | leading-strip returns the suffix starting at the first non-space, everything dropped being whitespace |
| `Text.TrimEndShape` | iamd.py:121 | trailing-strip returns the prefix ending at the last non-space, everything dropped being whitespace |
| `Text.StripSlice` | iamd.py:121 | `strip()` returns a contiguous slice with no whitespace at either end, all cut characters being whitespace |
| `Text.StripOfPadded` | iamd.py:121 | added whitespace on either side does not change `strip()`'s result |
| `Text.StripIdempotent` | iamd.py:121 | stripping twice equals stripping once |
| `Text.Lower` | iamd.py:121 | lower-casing keeps the length, leaves no ASCII capital and changes nothing else |
| `Text.StripLower` | iamd.py:121 | stripping and lower-casing commute |
| `Text.DecimalValueOfShowNat` | iamd.py:129-130 | `int()` of a number's decimal notation is that number |
| `Text.DecimalValueLeadingZero` | iamd.py:129-130 | a leading zero does not change `int()`'s value |
| `Selection.Interpret` | iamd.py:123-136 | on the normalized line: cancel iff `q`, all iff `all`, a pick iff a digit string d with 1 <= d <= number of files (naming file d-1), a bad-number re-prompt iff digits outside that range |
| `Selection.DecideNumber` | iamd.py:129-134 | typing number n picks the n-th listed file when 1 <= n <= count; 0 or a larger n re-prompts (for the digit-count limit of `int()` see Left out) |
| `Selection.DecidePadded` | iamd.py:121 | whitespace around the typed line does not change the decision |
| `Selection.DecideIgnoresCase` | iamd.py:121 | letter case does not change the decision |
| `Selection.ChooseFile` | iamd.py:104-138 | the prompt loop returns `Prompt(files, lines)`: the first line that is not a re-prompt decides; a re-prompt discards one more line |
| `Selection.PromptAnswers` | iamd.py:123-132 | the prompt never returns a file name together with "all"; a returned name belongs to a listed file and is non-empty when the list comes from the classifier |
| `Selection.PromptNoFiles` | iamd.py:103-106 | with no audio files the prompt cancels with `(None, False)` |
| `Selection.DownloadPlanNamesAudio` | iamd.py:233-245 | over the plan `DownloadPlan` gives: every planned download names an original audio file of the item, and no name is empty; "all" plans the names of the re-read listing's audio files, one each, in their order; a pick plans exactly the picked file (the empty-name guard never drops it); a cancel plans nothing |
| `Viewport.ScrollOffset` | iamd.py:180-185 | for `selected >= 0` the new offset satisfies `0 <= offset <= selected < offset + 12`; an offset already valid is kept; no valid offset is closer to the old one |
| `Viewport.ScrollOneStep` | iamd.py:180-185 | when the selection moves by one row, the window moves by at most one row |
| `Viewport.Visible` | iamd.py:201 | the visible slice has at most 12 rows, follows Python's clamping slice, and row i is result `offset + i` |
| `Viewport.SelectedIsVisible` | iamd.py:201-208 | inside the window, the selected result is drawn on row `selected - offset` |
| `Browser.LoadedPrefix` | iamd.py:164 | loading more pages only appends: earlier results keep their positions |
| `Browser.FailedPageSkipped` | iamd.py:158-165 | a page whose request failed adds nothing, and the next load asks for the page after it |
| `Browser.Navigate` | iamd.py:224-227 | `selected` stays in `[0, count-1]`; it goes up by one only for Down when not at the end, down by one only for Up when above 0, and is unchanged otherwise |
| `Browser.NavigateUndo` | iamd.py:224-227 | away from the ends, Up undoes Down and Down undoes Up |
| `Browser.Session.constructor` | iamd.py:154-156 | a new session has page 0, total 0 and no results |
| `Browser.Session.LoadMore` | iamd.py:158-165 | `page` rises by exactly 1 whatever the answer; the page's docs are appended; the count appended is returned; `total` is set only when the page is 1; pages requested so far are exactly 1..page |
| `Browser.Session.Tick` | iamd.py:177-185 | the next page is loaded iff `selected >= len-3` and `len < total`, otherwise the results are unchanged; afterwards the viewport invariant holds and the offset is the minimal-scroll one |
| `Browser.Session.Render` | iamd.py:196-211 | the frame shows the `total` and the visible slice, and the selected result is on screen |
| `Browser.Session.Press` | iamd.py:220-233 | `q` quits and nothing else does; arrows move `selected` as `Navigate` says, keeping it in range; Enter opens the selected result |
| `Browser.Session.Step` | iamd.py:176-233 | one loop pass keeps the session consistent; it loads the next page exactly when the growth trigger held, appending that page's docs; the offset becomes the minimal-scroll one for the old selection, and the frame shows that offset, that selection and its visible slice; a key other than `q` then moves `selected` as `Navigate` says, and `q` leaves it; Enter, and only Enter, opens the result that was selected; `total` never changes |
| `Browser.Session.Browse` | iamd.py:176-245 | the loop ends exactly at the first `q`: with a quit, the last key handled is `q` and no earlier key is; without one every key was handled; every drawn frame shows the selection and page 1's total; results only grow at the end |
| `Browser.ScrollThroughFortyFive` | iamd.py:177-178 | with a server reporting 45 matches in pages of 20, 20 and 5, scrolling down from the first row loads a page exactly at rows 17 and 37 and ends with 45 results, with no fourth load at the last row |
| `Browser.Run` | iamd.py:141-178 | an all-whitespace query ends at once; an empty first page ends with "nothing found"; otherwise every frame shows the selection and page 1's reported total |

## Left out

- HTTP: `fetch_page`'s request and JSON decoding, `get_audio_files`' metadata request,
  and `download_file`'s transfer are network I/O. They are replaced by the `fetch`
  function and by the file listings passed as arguments.
- `download_file`'s file writing and `tqdm` progress bar are filesystem I/O and a
  foreign library.
- `read_key`, `clear_screen` and the `stty size` width query are terminal control. Keys
  are a finite sequence of the strings `read_key` returns.
- The box drawing, title truncation and line formatting of each frame are string
  output. Only the frame's content is modelled: total, offset, selection and visible slice.
- `human_size` uses floating-point division and formatting.
- `os.makedirs`, the prompt texts, the "press Enter" pauses outside the selection
  prompt, and `KeyboardInterrupt` handling are process I/O.
- Opening an item with Enter hands the item to the selection prompt, which is modelled
  on its own (`Selection.ChooseFile`). Wiring the two together needs the metadata request.
- JSON fields that are not strings, and JSON shapes other than those the program
  reads, are not modelled. A missing `name`, `format` or `source` is the empty string.
  Each filter treats the two the same way.
- `Text.Lower`: only ASCII capitals are lower-cased. Python lower-cases all of Unicode.
  This changes no decision, because no non-ASCII character lower-cases to `q`, `a`,
  `l` or a digit.
- `Text.IsDigits`: only ASCII digits count. Python's `isdigit` also accepts other
  Unicode digits. `int()` then accepts some of them and raises on others, such as
  superscripts. The model treats such a line as an unknown command.
- `Browser.Session.Browse`: once the key sequence is used up, the loop ends. The
  program would block in `read_key`. An input that ends before an answer makes the
  selection prompt return `None`. Python raises `EOFError` there instead.
- `Selection.Interpret`: a digit string is read as its value however long it is.
  CPython 3.11 and later refuse to convert a string of more than 4300 digits: `int()`
  raises `ValueError`, nothing on the path through the prompt and `main` catches it,
  and the program ends with a traceback. The model re-prompts with "bad number"
  instead. That interpreter limit is configurable and absent from earlier versions.

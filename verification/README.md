# Minecraft coordinates calculator: converter and history store

A verified Dafny model of the logic in the calculator's single React
component (`src/App.jsx`). There are two parts.

- **Converter** (`converter.dfy`, module `Converter`). The displayed
  destination is recomputed from the three typed axes and the direction flag.
  Going to the Nether, X and Z are divided by 8, rounding down. Going back to
  the Overworld, they are multiplied by 8. Y is shown as typed, or 0 when it
  is blank. A blank or unparseable axis counts as 0. An axis is an
  `Option<int>`, where `None` stands for a blank or unparseable field.
- **History** (`history.dfy`, module `History`; `store.dfy`, module `Store`).
  Each copied result becomes an entry. The history keeps entries newest first
  and holds at most 10 of them. It is mirrored under one storage key.
  - `History` holds the values: the entry, the two direction labels, the
    prepend-and-cut step `Push`, and `Restore`. `Restore` returns an entry's
    typed input, plus the direction read off its label by the substring test
    `includes('Nether →')`.
  - `Store` holds the storage format (`Blob`, `Serialize`, `Parse`, `Load`).
    It also holds the class `HistoryStore`, whose fields are the history and
    the storage key. Its constructor `Mount` runs the load at mount time.
    `Commit` runs the copy action and `Clear` runs "clear all".
  - Each of these is proved to establish `Valid()`: reloading the stored key
    gives exactly the history in memory. None of them requires it beforehand.

The clock reading used as an entry's identifier and the time-of-day text are
parameters of `Commit`. Storage is the field `saved` (`None` when the key is
absent). Text that cannot be parsed is `Malformed`.

Loading an entry back only restores its `from` input and its direction. The
displayed result is then recomputed from them. `RestoreNewEntry` proves that
this recomputed result equals the entry's recorded `to`.

The direction of a loaded entry is not found by comparing the whole label
with the Nether → Overworld label. The code (`src/App.jsx:213`) tests whether
the label contains `Nether →`, and the model does the same
(`History.DirectionOf` via `History.Includes`). For the two labels the code
writes, the two readings agree (`History.DirectionOfLabel`).

## Model

| member | source | states |
|---|---|---|
| `Converter.Value` | src/App.jsx:26 | a typed number stands for itself; a blank or unparseable field stands for 0 |
| `Converter.ToNether` | src/App.jsx:27 | Overworld to Nether gives r with 8r <= n < 8r + 8, i.e. floor(n / 8), negatives included |
| `Converter.ToOverworld` | src/App.jsx:27 | Nether to Overworld gives the multiple of 8 whose eighth is n, i.e. exactly n * 8 |
| `Converter.Convert` | src/App.jsx:25-28 | per axis: the floor-of-eighth bound going to the Nether, the exact multiple going to the Overworld, and 0 for a blank or unparseable field in either direction |
| `Converter.Display` | src/App.jsx:24-35 | X and Z are converted; Y is the typed value unchanged, or 0 when blank |
| `Converter.ToNetherUnique` | src/App.jsx:27 | floor division has one answer: any r with 8r <= n < 8r + 8 is the converted value |
| `Converter.Galois` | src/App.jsx:27 | the two directions form a Galois connection: r * 8 <= n exactly when r <= floor(n / 8) |
| `Converter.NetherRoundTrip` | src/App.jsx:27 | Nether to Overworld and back to the Nether is the identity |
| `Converter.OverworldRoundTrip` | src/App.jsx:27 | Overworld to Nether and back gives n - (n mod 8), within 8 below n and never above it (100 comes back as 96) |
| `Converter.BlankAndY` | src/App.jsx:26-32 | a blank X or Z converts to 0 in either direction; Y does not depend on the direction |
| `Converter.Examples` | src/App.jsx:24-35 | (100, 64, 100) to the Nether shows (12, 64, 12); (12, 64, 12) to the Overworld shows (96, 64, 96); blank input shows (0, 0, 0) |
| `History.Label` | src/App.jsx:56 | the label is "Nether → Overworld" exactly for the Nether to Overworld direction and "Overworld → Nether" exactly for the other |
| `History.NewEntry` | src/App.jsx:52-58 | a recorded entry keeps the clock reading, the typed input and the time text, holds the displayed result for that input and direction, and carries the direction's label, which reads back as that direction |
| `History.Take` | src/App.jsx:60 | the cut keeps min(length, n) elements, and they are the list's first ones |
| `History.Push` | src/App.jsx:60 | after a copy the history has min(old + 1, 10) entries; the new entry is first; the rest is the first min(old, 9) old entries in order |
| `History.Includes` | src/App.jsx:213 | the substring test holds exactly when the marker occurs at some position of the label |
| `History.DirectionOf` | src/App.jsx:213 | a label gives Nether to Overworld exactly when "Nether →" occurs in it somewhere, and Overworld to Nether otherwise |
| `History.Restore` | src/App.jsx:211-213 | loading an entry back gives its `from` input and the direction that holds exactly when its label contains "Nether →" |
| `History.DirectionOfLabel` | src/App.jsx:213 | each of the two labels written at line 56 reads back as the direction it was written for, both ways |
| `History.RestoreNewEntry` | src/App.jsx:211-213 | loading a recorded entry back restores its input and direction, and recomputing the display from them gives the recorded result |
| `History.CopyExample` | src/App.jsx:52-60 | copying (100, 64, 100) to the Nether puts in front an entry with result (12, 64, 12) and label "Overworld → Nether" |
| `History.Commits` | src/App.jsx:60 | after one or more copies the history holds at most 10 entries and the last copied entry is first; with no copies it is unchanged |
| `History.CommitsNewestFirst` | src/App.jsx:60 | any non-empty run of copies leaves the copied entries newest first, then the earlier history, cut to 10 |
| `History.ElevenCommits` | src/App.jsx:60 | after 11 or more copies of distinct entries the history holds exactly 10, and the oldest copied entry is gone |
| `Store.Serialize` | src/App.jsx:62 | what is written to the key parses back to exactly the history written |
| `Store.Parse` | src/App.jsx:16 | reading the key fails exactly when it holds malformed text |
| `Store.Load` | src/App.jsx:12-21 | a missing key or text that fails to parse gives the empty history; a serialized history loads back as itself |
| `Store.HistoryStore.Mount` | src/App.jsx:8-21 | mount starts from the empty history and installs the stored list only when the key is present and parses; storage is untouched |
| `Store.HistoryStore.Commit` | src/App.jsx:52-62 | the new history is the recorded entry (input, displayed result, direction label) prepended and cut to 10, and the key then holds exactly that history |
| `Store.HistoryStore.Clear` | src/App.jsx:66-69 | the history is empty and the key is removed, so a reload gives the empty history |
| `Store.ReloadAfterClear` | src/App.jsx:66-69 | mount, copy, clear, then mount again from storage: the reloaded history is empty |
| `Store.ReloadAfterCommit` | src/App.jsx:60-62 | mount, copy, then mount again from storage: the reloaded history is exactly the copied entry in front of what was loaded at first, cut to 10; that entry loads back to the same input, direction and result |

## Left out

- Rendering, styling, the history panel's visibility and the "copied" flag with its 2-second reset (`src/App.jsx:47-49`, `71-237`). These are presentation and timing.
- The clipboard write and its promise. The model commits as if the write succeeded, which is the only case in which the code records history.
- The delay of the history write (`src/App.jsx:47`, `60`). The code writes the history only once the clipboard promise resolves, using the `history` value captured when the button was clicked. So two copies before the promise resolves keep only one new entry, and a "clear all" in between is undone. The model's `Commit` is one atomic step, so it does not capture these interleavings.
- `Date.now()` and `toLocaleTimeString`. These are clock and locale calls, so `Commit` takes their values as parameters.
- The concrete storage calls and JSON text. Storage is one `Option<Blob>` field, and parsing only fails on `Malformed` text. A stored JSON value that parses but is not a list of entries is not modelled.
- Fractional input, the `Number()` string grammar and floating-point limits. Axes are unbounded integers, and anything that does not read as a number is `None`. Because the inputs are numeric fields, non-numeric text reaches the code as the empty string. So the source's pass-through of raw Y text is modelled as its integer value.
- The call to `setDisplayedCoords` on the LOAD button (`src/App.jsx:214`). No such function exists, so the call throws, and the next line, which closes the history panel (`src/App.jsx:215`), never runs. The model restores only the input and the direction, and lets the converter recompute the display. Closing the panel is presentation and is not modelled.
- The setters for the typed axes and the direction toggle (`src/App.jsx:107`, `144`). They belong to the rendering code. The converter takes the input and the direction as arguments.
- A stored history longer than 10 entries is installed as it is at mount time, because the code does not cut it there. Only the next copy cuts it, which is why `History.CommitsNewestFirst` is stated for at least one copy.

# Result-page indexer, modelled in Dafny

`build_json.py` walks two per-language directory trees of generated HTML
result pages (`<base>/video<n>/case<m>.html`) and writes one JSON document.
The document holds:

- the generation time,
- the two base paths,
- the number of case records per language,
- per language, an object mapping each video number (as a decimal string,
  in ascending numeric order) to the list of its case records
  `{case, filename, relpath}`, sorted by case number.

This project models the indexing rule and the payload assembly:

- **Name parsing** (module `Names`, `names.dfy`): the two patterns
  `video(\d+)$` and `case(\d+)\.html$` (IGNORECASE) applied with
  `re.search`, followed by `int(...)` of the captured digit run; and `str(k)`.
  Python's `$` also matches just before a final newline, and IGNORECASE lets
  U+017F (long s) match `s`; both are modelled.
- **Library behaviour** (module `Sorting`, `sorting.dfy`): listing filters,
  the stable sort behind `sorted(...)` and `list.sort(key=...)`, and Python's
  code-point order on strings, which is how the paths of one directory
  compare.
- **The scanner** (module `Scan`, `scan.dfy`): `scan_language`. It is an
  imperative method with the same two nested loops, `continue` branches and
  overwrite `out[vnum] = cases`. The method is proved equal to a functional
  specification (`ScanSpec`, a fold over the sorted directories), and the
  indexer's guarantees are proved about that specification.
- **The payload** (module `Index`, `index.dfy`): the counts
  `sum(len(v) for v in m.values())`, the listing
  `{str(k): v for k, v in sorted(m.items())}`, and `main`'s assembly of the
  two scans.
- **Concrete directory trees** (module `Scenarios`, `scenarios.dfy`): the
  documented example layouts and what the model computes for them.

The inputs are modelled as follows:

- **File system.** A base directory is `None` when it does not exist, or
  when it exists but is not a directory (`glob` then finds nothing).
  Otherwise it is its listing: entries `(name, isDir, children)`, each child
  `(name, isFile)`, in any order.
- **Resolved base path.** `base_dir` after `resolve()` is given as its
  sequence of path components.
- **Clock.** The clock reading and the two base strings are parameters.

The comment beside `relpath` (build_json.py:58) calls it relative to the
repository root, but the code (build_json.py:54) computes
`html.relative_to(base_dir.parent.parent)`. For the default base
`<root>/result/result_en/html` that is `<root>/result`, not the repository
root, so the relpath is `result_en/html/video2/case01.html` rather than
`result/result_en/html/video2/case01.html`. The model follows the code;
`Scenarios.EnglishOnlyPayload` and `Scenarios.ScenarioPath` state what it
produces.

The `glob` prefilters are modelled explicitly, as on a case-sensitive
(POSIX) file system, rather than treated as implied by the regular
expressions. They are not implied by them: `myvideo1` passes
`VIDEO_DIR_RE.search` but not `glob("video*")`, and `xcase1.html` passes
`CASE_FILE_RE.search` but not `glob("case*.html")`.

## Model

| member | source | states |
|---|---|---|
| Names.NatToString | build_json.py:99-100 | `str(k)` is a non-empty run of ASCII digits that starts with `0` only for the number 0 (no leading zeros) |
| Names.DecimalValueOfNatToString | build_json.py:99-100 | reading a rendered key back gives the video number: `int(str(n)) == n` |
| Names.NatToStringInjective | build_json.py:99-100 | distinct video numbers become distinct keys, in both directions |
| Names.LeadingZeroIgnored | build_json.py:43 | a leading `0` does not change the value of a digit run, so `video007` and `video7` name the same video |
| Names.TrailingDigits | build_json.py:25 | the digit run the group `(\d+)` captures before `$` is the longest suffix made of digits, and the character before it is not a digit |
| Names.TrailingDigitsOf | build_json.py:25 | for a prefix not ending in a digit followed by a digit run, exactly that run is captured |
| Names.MatchEndOf | build_json.py:25-26 | `$` matches at the end of the name or just before one final newline |
| Names.MatchEndShape | build_json.py:25-26 | the name is the text before the anchor, followed by nothing or by one newline |
| Names.VideoNumberComplete | build_json.py:40-43 | every name of the form `<p>video<digits>` (optionally followed by a newline) yields the decimal value of its digits |
| Names.VideoNumberSound | build_json.py:40-43 | every name that yields a video number has that form, with the number as the value of its digits |
| Names.VideoNumberIff | build_json.py:40-43 | a directory name yields video number `n` if and only if it ends in `video` and a digit run of value `n` (case-sensitive) |
| Names.CaseNumberComplete | build_json.py:50-53 | every name of the form `<p><case><digits><.html>` (literals ignoring case, optional final newline) yields the value of its digits |
| Names.CaseNumberSound | build_json.py:50-53 | every name that yields a case number has that form |
| Names.CaseNumberIff | build_json.py:50-53 | a file name yields case number `n` if and only if it ends in `case<digits>.html` with the literals matched ignoring case and the digits of value `n` |
| Names.VideoNumberExample | build_json.py:40-43 | `video7` is video 7 |
| Names.VideoNumberLeadingZeros | build_json.py:40-43 | `video007` is video 7 |
| Names.VideoNumberRejectsCase | build_json.py:40-42 | `Video7` is skipped: the literal is matched case-sensitively |
| Names.VideoNumberRejectsSuffix | build_json.py:40-42 | `video7x` is skipped: the digit run must end the name |
| Names.CaseNumberPadded | build_json.py:50-57 | `case01.html` is case 1: leading zeros of the digit run are ignored |
| Names.CaseNumberUpper | build_json.py:50-53 | `CASE1.HTML` is case 1: the literals are matched ignoring case |
| Names.CaseNumberRejectsNoDigits | build_json.py:50-52 | `case.html` is skipped: at least one digit is required |
| Names.CaseNumberRejectsExtension | build_json.py:50-52 | `case1.htm` is skipped: the name must end in `.html` |
| Sorting.Filter | build_json.py:47 | a glob keeps exactly the entries satisfying its pattern, and no more entries than it was given |
| Sorting.SortBy | build_json.py:64 | the sort returns a permutation of its input |
| Sorting.SortBySorted | build_json.py:64 | under a total preorder the sort's result is ordered |
| Sorting.SortByStable | build_json.py:64 | the sort is stable: the elements of any class with equal sort keys keep their original relative order |
| Sorting.FilterMapMembers | build_json.py:47-59 | the collected values are exactly those produced by some visited element |
| Sorting.FilterMapSortBy | build_json.py:47-59 | visiting a sorted copy of a listing collects the same records with the same multiplicities |
| Sorting.NameLeTotal | build_json.py:37 | any two names are comparable |
| Sorting.NameLeTransitive | build_json.py:37 | the name order is transitive |
| Sorting.NameLeAntisymmetric | build_json.py:37 | names equal under the order are the same name |
| Scan.EntryLeTotalPreorder | build_json.py:37 | `sorted()` on the `video*` paths of one directory uses a total preorder |
| Scan.ChildLeTotalPreorder | build_json.py:47 | `sorted()` on the `case*.html` paths of one directory uses a total preorder |
| Scan.UpperCaseNotGlobbed | build_json.py:47 | the POSIX glob `case*.html` matches case-sensitively, so `CASE1.HTML` is never visited |
| Scan.RelPathUnderGrandparent | build_json.py:54 | the `relpath` of a record, put under the base directory's grandparent, is the file's own absolute path, with `/` separators |
| Scan.UnsortedCasesRecords | build_json.py:47-59 | a record is collected for a directory if and only if one of its `case*.html` entries is a file whose name parses to that case number; the record carries the unchanged file name and its relpath |
| Scan.UnsortedCasesNonEmpty | build_json.py:47-62 | the inner loop collects something if and only if some `case*.html` entry yields a record |
| Scan.ContributionIff | build_json.py:37-65 | a directory stores a list if and only if it is a directory, its name parses to a video number and at least one of its files matches |
| Scan.ContributionSorted | build_json.py:61-65 | a stored list is under the directory's own video number, is non-empty, is sorted by case number, and is a permutation of the records of its `case*.html` files |
| Scan.ContributionStable | build_json.py:47-64 | records with equal case numbers stay in sorted-filename order |
| Scan.SkipsChild | build_json.py:48-52 | an extra entry that is not a regular file, or whose name does not match, changes nothing |
| Scan.CollectedStep | build_json.py:47-59 | one pass of the inner loop appends the next file's record when it has one and nothing otherwise |
| Scan.FoldStep | build_json.py:37-65 | one pass of the outer loop stores the next directory's list under its number when it has one and leaves `out` unchanged otherwise |
| Scan.FoldKeys | build_json.py:37-65 | a number is a key exactly when some visited directory stores a list under it |
| Scan.FoldLastWins | build_json.py:37-65 | the list under a number is that of the last visited directory with that number; earlier lists are replaced, not merged |
| Scan.FoldWellFormed | build_json.py:61-65 | when every stored list is non-empty and sorted, so is every value of the result |
| Scan.FoldSkip | build_json.py:38-42 | a directory that stores nothing can be dropped from the visit |
| Scan.ScanWellFormed | build_json.py:32-65 | an absent base gives the empty map; no key maps to an empty list; each list is sorted by case number |
| Scan.ScanKeys | build_json.py:37-65 | a video number is a key if and only if some `video*` entry of the base directory stores a list under it |
| Scan.ScanSkipsEntry | build_json.py:38-42 | an extra entry that is not a directory, does not match, or holds no matching file leaves the result unchanged |
| Scan.ScanLanguage | build_json.py:28-67 | the two nested loops compute exactly the specification's map; the result is empty for an absent base, and all lists are non-empty and sorted |
| Index.SortedKeys | build_json.py:99-100 | `sorted(m.items())` visits each key exactly once, in strictly increasing order |
| Index.Render | build_json.py:99-100 | `videos.<lang>` has one entry per key. Each entry's key is the canonical decimal string of a map key, next to that key's own list. Every map key is listed, and keys appear in strictly increasing numeric order |
| Index.SumOverPermutation | build_json.py:95-96 | adding up the list lengths gives the same total in any visiting order |
| Index.CountsAnyOrder | build_json.py:95-96 | any sequence listing each key once, as a dict iteration does, sums to `counts.<lang>` |
| Index.CountsMatchListing | build_json.py:94-100 | `counts.<lang>` equals the number of records listed in `videos.<lang>` |
| Index.RenderWellFormed | build_json.py:94-100 | when the map has no empty lists, no listed entry is empty, each is sorted, and the count is at least the number of videos |
| Index.Assemble | build_json.py:88-102 | the payload carries the clock reading and base strings unchanged; `videos.<lang>` is a listing of that language's map (one entry per key, keyed by the canonical decimal string next to the key's own list, every key covered, keys strictly increasing); `counts.<lang>` is `Counts` of the map, which equals the number of records listed |
| Index.BuildIndex | build_json.py:83-102 | `main`'s payload is the assembly of the two scans. In each language the counts match the listing, no listed video is empty and every list is sorted. An absent base directory gives count 0 and no videos |
| Scenarios.ScenarioPath | build_json.py:54 | with base `<root>/result/result_en/html`, a file of `video2` gets relpath `result_en/html/video2/<file>` |
| Scenarios.EnglishOnlyPayload | build_json.py:83-100 | `video2` holding `case2.html` and `case01.html`, with no Japanese base: English count 2, one video `"2"` with cases 1 then 2, Japanese count 0 and no videos |
| Scenarios.NineBeforeTen | build_json.py:99-100 | keys `9` and `10` are listed as `"9"` before `"10"`, although `"10"` sorts first as a string |
| Scenarios.LaterDirectoryWins | build_json.py:37-65 | `video01` and `video1` both parse to 1; `video1` sorts later and its list replaces that of `video01` |
| Scenarios.DuplicateCaseNumbersKept | build_json.py:47-64 | `case1.html` and `case01.html` in one directory are both kept as case 1, `case01.html` first |

## Left out

- Command-line parsing and the defaults of `--root`, `--base-en`, `--base-ja` and `--out` (build_json.py:70-75): argument handling, not indexing logic.
- `Path.resolve()` (build_json.py:77-80): the resolved base path is an input, its components.
- Creating the output directory, opening and writing the file, the JSON text format (`indent`, `ensure_ascii`) and the final message (build_json.py:81, 105-108). These are I/O. A JSON object is modelled as the sequence of its key/value entries in insertion order.
- `datetime.now(timezone.utc).isoformat()` (build_json.py:89): a clock read, taken as a string parameter.
- `Path(args.base_en).as_posix()` (build_json.py:91-92): host-path normalisation. The base strings are parameters taken as already normalised.
- `exists()`, `is_dir()`, `is_file()` and the directory listing are inputs. Symbolic links, permission errors and changes to the tree during the scan are not modelled.
- Platform-dependent `glob` case sensitivity: the globs are modelled as on POSIX. On Windows, pathlib's globs match case-insensitively, so `glob("case*.html")` would also visit `CASE1.HTML` (`Names.CaseNumberUpper` shows the regular expression accepts it; `Scan.UpperCaseNotGlobbed` shows the modelled glob does not), and `sorted()` of Windows paths compares case-folded names; neither is modelled.
- Unicode digits: Python's `\d` and `int` accept non-ASCII decimal digits. The model accepts ASCII digits only.
- Sorting.SortBy: it stands for Python's sort (Timsort) by an insertion sort with the same stability contract. That any two stable sorts give the same sequence is not proved here.
- Scan.ScanLanguage: `cases.sort(...)` sorts in place, but the model assigns the sorted value. The list is not shared, so no aliasing is lost.
- Scan.ScanLanguage: the order in which the dict `out` remembers its keys is not modelled; `out` is a map. That order only affects the iteration inside `sum(...)`, which `Index.CountsAnyOrder` shows cannot change the count, and `sorted(...)` erases it before output.

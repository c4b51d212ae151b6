# test-zips-of-xmls, modelled in Dafny

test-zips-of-xmls builds ZIP archives of small XML "records" with random content, and scans
such archives back into two CSV reports. Each record is a `root` element holding two parts:
- a `var` named `id` and a `var` named `level`, each with a `value`;
- an `objects` element holding named `object` children.

This project models the three core modules and proves what they promise:

- `modules/stats.py`
  - `get_xml_stats` extracts one record's id, level and object names. Each field must be found by a search path that selects exactly one element below the root.
  - `get_zip_stats` scans the archive entries whose names match `.*\.xml` and stops at the first failure.
  - `stats_to_csv_data` writes the stats into two CSV texts, "ID,Level" and "ID,Object name", and encodes them as UTF-8.
- `modules/generation.py`: `generate_xml_contents` builds a record tree in place with `SubElement`. `create_xml_file` wraps it, and `create_zip_file` stores records as `0.xml`, `1.xml`, ….
- `modules/utils.py`: `RANDOM_CHARSET` and `random_str`.

## Layout

| file | module | what |
|---|---|---|
| wrappers.dfy | `Wrappers` | `Option`, and `Result` with failure propagation |
| xml.dfy | `Xml` | the ElementTree subset in use: element trees; `get`; the two `findall` path forms `.//*[@a="v"]` and `.//tag`; a mutable `Node` class whose `SubElement` appends in place |
| text.dfy | `Text` | `str.encode("utf-8")` (RFC 3629, section 3) and `str(n)`, with its inverse |
| csv.dfy | `Csv` | `csv.writer` with `QUOTE_MINIMAL` over a `StringIO` (class `Writer`), plus a reader used as the writer's inverse |
| utils.dfy | `Utils` | modules/utils.py |
| stats.dfy | `Stats` | modules/stats.py |
| generation.dfy | `Generation` | modules/generation.py |
| pipeline.dfy | `Pipeline` | how the two sides fit: a generated archive scans back to its own draws |
| examples.dfy | `Examples`, `ReportExamples` | the general laws on small concrete inputs |

## How the model is built

**Randomness becomes data.** A `Generation.Draws` value holds what `random` would have returned:
- the id length and the character indices of the id;
- the level;
- the object count and the character indices of each name.

`Drawable` states the ranges `randint` and `choice` keep to. Every generator function is exact for every admissible draw.

**Parsing is abstracted.** XML bytes stand for the tree they parse to (`Stats.XmlInput`): either `Unparsable` or `Parsed(root)`. Likewise an archive is `Unopenable` or an ordered list of entries. An entry's payload is either a read failure or parsed XML.

**Imperative code stays imperative.** Three pieces of the source change state step by step, so each is a method with a loop:
- `get_zip_stats` becomes `Stats.GetZipStats`, a `while` loop with `continue` and `break`;
- `stats_to_csv_data` becomes `Stats.StatsToCsvData`, a `for` loop over two `Csv.Writer` objects;
- `create_zip_file` and `generate_xml_contents` become loops over a `Generation.ZipArchiveWriter` and over `Xml.Node` objects.

Each method is proved equal to a specification function. The source's promises are then proved about those functions.

**Extraction is characterised in both directions.**
- `Stats.ExtractSound` and `Stats.ExtractComplete` show that extraction returns `s` exactly when the tree `Describes` `s`.
- Describes means: exactly one element below the root is named `id`, exactly one is named `level` and exactly one is tagged `objects`, and the values are as given.
- Counting is defined independently of `findall`, by `Xml.CountBelow`.

**The scan is a prefix.**
- `Stats.IsScanOf` states that the result lists the extraction results of the matching entries, up to the first failure.
- `Stats.ScanIsUnique` shows that at most one result has that property.

**The reports are pinned down row by row.**
- `Stats.LevelTableAt` and `Stats.ObjectTableAt` give the rows.
- `Stats.ReportsReadBack` reads the CSV text back into the field texts.

## Model

| member | source | states |
|---|---|---|
| Xml.Lookup | modules/stats.py:42 | `get` finds nothing exactly when no attribute has the key; a found value belongs to an attribute with that key |
| Xml.SelectMember | modules/stats.py:37 | the elements `findall` keeps are exactly the descendants the path selects |
| Xml.SelectAppend | modules/stats.py:37 | filtering by a path distributes over concatenation, so document order is kept |
| Xml.FindAll | modules/stats.py:37 | `root.findall(path)` returns exactly the elements strictly below the root that the path selects |
| Xml.SubtreeCount | modules/stats.py:37 | within one subtree, the path keeps as many elements as the independent count gives |
| Xml.FindAllCount | modules/stats.py:36-38 | `findall` returns exactly as many elements as the path selects strictly below the root |
| Xml.FindAllUnique | modules/stats.py:37-39 | if the path selects exactly one element below the root, `findall` returns that element alone |
| Xml.Node.constructor | modules/generation.py:25 | `ET.Element(tag)` is a valid childless element with that tag and those attributes |
| Xml.Node.SubElement | modules/generation.py:28-35 | `SubElement` appends one fresh childless element to the children and keeps tag and attributes; the tree gains that element as its last child |
| Xml.Node.ChildValuesAt | modules/generation.py:47 | the value of a node lists each child's value at the child's position |
| Xml.Node.ThreeChildValues | modules/generation.py:25-47 | a node with three children stands for the tree of those three children's values |
| Text.EncodeChar | modules/utils.py:4 | UTF-8 gives 1 to 4 bytes, exactly 1 for ASCII (the code itself); the lead byte of a 2-, 3- or 4-byte form lies in C2-DF, E0-EF or F0-F4, and every continuation byte in 80-BF (RFC 3629, section 4) |
| Text.AsciiEncoding | modules/stats.py:112 | ASCII text encodes to one byte per character, each byte the character's code |
| Text.EncodeAppend | modules/stats.py:112 | encoding distributes over concatenation |
| Text.DecimalText | modules/generation.py:41 | `str(n)` is a non-empty run of digits with no leading zero |
| Text.DecimalRoundTrip | modules/generation.py:41-44 | reading `str(n)` back as a decimal gives `n` |
| Text.DecimalInjective | modules/generation.py:75 | different numbers have different decimal texts |
| Utils.CharRun | modules/utils.py:6-9 | a run of `n` consecutive characters, the k-th being `first + k` |
| Utils.RandomCharsetContents | modules/utils.py:6-9 | the alphabet has 62 characters, 52 ASCII letters and then 10 digits; it holds every letter and digit, each exactly once |
| Utils.RandomCharsetIsPlain | modules/utils.py:6-9 | no alphabet character is non-ASCII or XML/CSV markup |
| Utils.RandomStr | modules/utils.py:11-12 | `random_str(l)` has length `l`, or 0 when `l <= 0`; its k-th character is the alphabet's k-th chosen one |
| Utils.RandomStrEncoding | modules/utils.py:4-12 | a random string's UTF-8 encoding has one byte per character, and no character is markup |
| Csv.NeedsQuotesIff | modules/stats.py:17-20 | with minimal quoting, a field is quoted exactly when it contains a comma, a quote, CR or LF |
| Csv.RenderField | modules/stats.py:17-20 | a field is written as it is exactly when it needs no quotes, and otherwise inside quote characters |
| Csv.RenderRow | modules/stats.py:99 | every written row, even an empty one, ends in the CR LF terminator |
| Csv.RenderRows | modules/stats.py:108-110 | `writerows` writes nothing exactly when it is given no rows |
| Csv.RenderOneRow | modules/stats.py:99 | `writerows([row])` writes what `writerow(row)` writes |
| Csv.PlainPairRow | modules/stats.py:107 | a two-field row of plain texts is written as `a,b` followed by CR LF |
| Csv.RenderRowsPrefix | modules/stats.py:108-110 | writing one more row appends exactly that row's text |
| Csv.RenderRowsAppend | modules/stats.py:108-110 | writing two batches of rows is writing their concatenation |
| Csv.Writer.constructor | modules/stats.py:97-98 | a new writer's buffer is empty |
| Csv.Writer.WriteRow | modules/stats.py:99 | `writerow` appends the rendered row to the buffer and changes nothing else |
| Csv.Writer.WriteRows | modules/stats.py:108-110 | `writerows` appends the rendered rows, in order |
| Csv.ReadQuotedDoubled | modules/stats.py:17-20 | a doubled-quote body and its closing quote read back as the original text |
| Csv.ReadRenderedField | modules/stats.py:17-20 | every written field reads back as its text, whether quoted or not |
| Csv.ReadRenderedRow | modules/stats.py:107 | every written non-empty row reads back as its field texts, including the lone-empty-field `""` row |
| Csv.ReadRenderedRows | modules/stats.py:97-112 | text written for non-empty rows reads back as exactly those rows' field texts, in order |
| Stats.SearchPath | modules/stats.py:11-15 | the id path selects exactly the elements whose `name` is "id", the level path those whose `name` is "level", the objects path those tagged `objects` |
| Stats.FindUniqueEl | modules/stats.py:35-39 | `find_unique_el` succeeds exactly when the search path selects one element below the root; that element is a descendant the path selects |
| Stats.GetVal | modules/stats.py:41-45 | `get_val` succeeds exactly when `value` is present and non-empty, and returns it verbatim |
| Stats.ObjectNames | modules/stats.py:53 | one name per child of `objects`, whatever the child's tag |
| Stats.GetXmlStats | modules/stats.py:47 | a document that does not parse fails with the parser's error |
| Stats.ExtractSound | modules/stats.py:47-59 | every stat extraction returns is described by the tree: unique matches for the three paths, non-empty values, names in child order |
| Stats.FindUniqueElOf | modules/stats.py:35-39 | when an element is the unique match, `find_unique_el` returns it |
| Stats.ExtractFrom | modules/stats.py:49-59 | extraction returns the id, the level and the object names of the three elements it finds, verbatim and unvalidated |
| Stats.ExtractComplete | modules/stats.py:22-59 | every tree that describes a stat extracts to exactly that stat |
| Stats.ExtractFailsIff | modules/stats.py:35-59 | extraction fails exactly on trees that describe no stat |
| Stats.NotUniqueRejected | modules/stats.py:38 | zero matches or several matches for any search path make extraction fail |
| Stats.TemplateMatchShift | modules/stats.py:73 | a start-anchored `.*` match can skip a leading non-newline character |
| Stats.MatchesXmlTemplate | modules/stats.py:16 | `re.match(r".*\.xml", name)` holds exactly when ".xml" occurs at some position with no line feed before it |
| Stats.XmlEntries | modules/stats.py:71-75 | the filter keeps no more entries than there are (which ones, and in what order, is stated by the two lemmas below) |
| Stats.XmlEntriesMember | modules/stats.py:71-75 | the filter keeps exactly the entries whose names match the template |
| Stats.XmlEntriesAppend | modules/stats.py:71-75 | the filter works entry by entry, so archive order is kept |
| Stats.ProcessEntry | modules/stats.py:76-79 | an entry yields no stat exactly when reading it or extracting from it fails; a stat it yields is described by the entry's tree |
| Stats.ScanEntries | modules/stats.py:71-79 | the scan yields at most one stat per matching entry |
| Stats.ScanArchive | modules/stats.py:68-87 | an archive that cannot be opened yields no stats; an opened one yields the matching entries' stats in archive order, up to the first failure |
| Stats.Outcomes | modules/stats.py:76-79 | one extraction outcome per entry |
| Stats.OutcomesAt | modules/stats.py:76-79 | the i-th outcome is the i-th entry's extraction |
| Stats.ScanEntriesCons | modules/stats.py:71-79 | one loop step: a non-matching name is skipped, a failing entry ends the scan, and a stat is prepended |
| Stats.ScanEntriesAt | modules/stats.py:71-79 | the same step, at position `i` of an archive |
| Stats.PrefixScanCons | modules/stats.py:77-85 | the prefix property survives prepending one outcome |
| Stats.ScanEntriesIsScan | modules/stats.py:68-87 | the scan returns the matching entries' stats, in archive order, up to the first failure |
| Stats.ScanIsUnique | modules/stats.py:68-87 | at most one sequence of stats has that prefix property |
| Stats.ScanAllExtracted | modules/stats.py:71-79 | when every matching entry extracts, there is one stat per matching entry, in order |
| Stats.GetZipStats | modules/stats.py:62-87 | the loop returns the scan; an archive that cannot be opened gives `[]`; otherwise the result is the prefix scan of the matching entries |
| Stats.ObjectRows | modules/stats.py:108-110 | one row per object name |
| Stats.LevelTableAt | modules/stats.py:106-107 | the first table has one row per stat, the i-th being `[id, level]` of the i-th stat |
| Stats.LevelTableLength | modules/stats.py:106-107 | the first table has as many rows as there are stats |
| Stats.ObjectTableLength | modules/stats.py:106-110 | the second table has one row per object over all stats |
| Stats.TotalObjectsPrefix | modules/stats.py:106-110 | the objects of earlier stats come before those of later stats |
| Stats.ObjectTableAt | modules/stats.py:106-110 | the j-th object of the i-th stat is the row `[id, name]` right after the objects of earlier stats |
| Stats.ReportStart | modules/stats.py:97-104 | before the loop, each file holds only its header row |
| Stats.ReportStep | modules/stats.py:106-110 | each loop iteration appends the stat's rows to both files |
| Stats.StatsToCsvData | modules/stats.py:90-112 | the returned bytes are the UTF-8 encodings of the header plus the first table, and of the header plus the second table |
| Stats.ReportsReadBack | modules/stats.py:90-112 | reading either file back gives its header and table field texts, row by row |
| Stats.HeaderedRowsNonEmpty | modules/stats.py:99 | a header row followed by two-field rows has no empty row |
| Stats.TablesHaveTwoFields | modules/stats.py:107-109 | every row of both tables has two fields |
| Generation.IdValue | modules/generation.py:26-27 | the id's length is in `[1, max_str_len]` |
| Generation.LevelText | modules/generation.py:41-44 | the level is the decimal text of a number in `[1, 100]`, without a leading zero |
| Generation.ObjectElements | modules/generation.py:52-59 | one `object` element per name |
| Generation.ObjectNames | modules/generation.py:57 | each object name is exactly `max_str_len` characters long |
| Generation.Generated | modules/generation.py:24-59 | the record is a `root` with three children, the third tagged `objects` and holding exactly as many children as `objects_num` drew |
| Generation.GeneratedBounds | modules/generation.py:24-59 | the record has three children: `var id` with a 1..max-length value, `var level` with a value in 1..100, and `objects` holding 1..10 `object`s, each with only a `name` of length `max_str_len` |
| Generation.ObjectElementsSnoc | modules/generation.py:52-59 | one more loop iteration appends one `object` |
| Generation.AppendObjects | modules/generation.py:52-59 | the loop appends one `object` per drawn name, in order, to `objects` |
| Generation.NewRecordRoot | modules/generation.py:25-47 | a root with the id `var`, the level `var` and an empty `objects`, in this order, each `var` with `name` before `value` |
| Generation.BuildRecord | modules/generation.py:25-59 | the built tree is the record of the id, the level and the drawn names |
| Generation.GenerateXmlContents | modules/generation.py:24-61 | `max_str_len < 1` fails in `randint`; otherwise the result is the record of the draws |
| Generation.CreateXmlFile | modules/generation.py:64-65 | the record uses the default string length 10 and cannot fail |
| Generation.EntryName | modules/generation.py:75 | an entry name has at least five characters and ends in ".xml" |
| Generation.EntryNamesDistinct | modules/generation.py:74-75 | different indices give different entry names |
| Generation.ZipArchiveWriter.constructor | modules/generation.py:72-73 | a new archive has no entries |
| Generation.ZipArchiveWriter.WriteStr | modules/generation.py:72-76 | `writestr` appends one entry, or, once the archive holds 65535 entries (ZIP64 is off), raises `LargeZipFile` and leaves the archive unchanged |
| Generation.GeneratedArchive | modules/generation.py:74-76 | the entries written for `range(n)` are `n`, or none when `n <= 0` |
| Generation.GeneratedArchiveStep | modules/generation.py:74-76 | one loop iteration appends the entry `i.xml` |
| Generation.CreateZipFile | modules/generation.py:68-78 | for `n <= 65535` the loop builds exactly the archive of entries `0.xml .. n-1.xml` holding the records of the draws; for larger `n` it fails with `LargeZipFile` |
| Generation.GeneratedArchiveEntries | modules/generation.py:74-76 | entry names are pairwise distinct, and entry i is `i.xml` with the i-th record |
| Pipeline.Named | modules/stats.py:53 | one extracted name per generated name |
| Pipeline.ObjectsNotSelected | modules/stats.py:11-15 | no `object` is selected by a path that rejects each of them |
| Pipeline.CountThree | modules/stats.py:37 | the count below a three-child root is the sum over its children |
| Pipeline.SubtreesThree | modules/stats.py:37 | each child of the root is among its descendants |
| Pipeline.RecordMatch | modules/stats.py:11-15 | in a generated-shape record whose object names avoid "id" and "level", each search path selects exactly its own child |
| Pipeline.RecordTreeExtracts | modules/stats.py:22-59 | such a record extracts to its own id, level text and names |
| Pipeline.GeneratedRecordExtracts | modules/generation.py:24-61 | every generated record extracts to its draws, unless `max_str_len` is 2 or 5 |
| Pipeline.PicksSpellId | modules/utils.py:11-12 | the picks 8 and 3 spell "id" |
| Pipeline.OneObjectNamedId | modules/stats.py:12 | an object named "id" is selected by the id path |
| Pipeline.ObjectNamedIdRejected | modules/stats.py:35-39 | a record with an object named "id" fails extraction |
| Pipeline.ShortNamesBreakExtraction | modules/generation.py:57 | with `max_str_len = 2` a generated record can fail extraction |
| Pipeline.PicksSpellLevel | modules/utils.py:11-12 | the picks 11, 4, 21, 4 and 11 spell "level" |
| Pipeline.OneObjectNamedLevel | modules/stats.py:13 | an object named "level" is selected by the level path |
| Pipeline.ObjectNamedLevelRejected | modules/stats.py:35-39 | a record with an object named "level" fails extraction |
| Pipeline.FiveLetterNamesBreakExtraction | modules/generation.py:57 | with `max_str_len = 5` a generated record can fail extraction |
| Pipeline.EntryNameMatches | modules/generation.py:75 | every generated entry name matches the scanner's template |
| Pipeline.AllMatch | modules/stats.py:73-75 | when every name matches, the filter keeps every entry |
| Pipeline.GeneratedArchiveScans | modules/generation.py:68-78 | scanning an archive of `n` generated records gives `n` stats, the i-th holding the i-th draws |
| Examples.TemplateAcceptsInnerXml | modules/stats.py:16 | "0.xml" and "a.xml.bak" match: the pattern is anchored at the start only |
| Examples.TemplateRejects | modules/stats.py:16 | "1.txt", "a.XML" and "a\n.xml" do not match |
| Examples.DuplicateIdRejected | modules/stats.py:38 | a record with two `id` elements fails |
| Examples.ScanThree | modules/stats.py:71-79 | match, skip, match gives the two stats in archive order |
| Examples.ScanSkipsOtherNames | modules/stats.py:71-79 | entries "0.xml", "1.txt" and "a.xml.bak" give the first and third stats |
| Examples.ScanStopsAtFailure | modules/stats.py:84-87 | a failing first entry ends the scan with `[]`, even before an entry that would extract |
| ReportExamples.LevelHeaderText | modules/stats.py:99 | the first header is written `ID,Level` CR LF |
| ReportExamples.ObjectHeaderNameIsPlain | modules/stats.py:104 | "Object name" needs no quotes |
| ReportExamples.ObjectHeaderText | modules/stats.py:104 | the second header is written `ID,Object name` CR LF |
| ReportExamples.LevelReportOfOneStat | modules/stats.py:97-107 | one plain stat gives the header then `id,level` CR LF |
| ReportExamples.ObjectRowsText | modules/stats.py:108-110 | a named and an unnamed object give `id,a` CR LF then `id,` CR LF |
| ReportExamples.ObjectReportOfOneStat | modules/stats.py:102-110 | the second file for that stat is the header followed by those two rows |

## Notes on the source

- Each CSV row ends in CR LF, the `csv` module's default line terminator, not in a bare line feed.
- `re.match` anchors the template `.*\.xml` at the start of the name only. A name such as "a.xml.bak" is scanned, and ".xml" must occur before any line feed. The match is case-sensitive.
- Generated records extract to their own draws when `max_str_len` is the default 10 (`Pipeline.GeneratedArchiveScans`).
  - This does not hold for every `max_str_len >= 1`.
  - With `max_str_len` 2 or 5, an object can be named "id" or "level". The id or level search path then selects two elements, and extraction fails (`Pipeline.ShortNamesBreakExtraction` for "id", `Pipeline.FiveLetterNamesBreakExtraction` for "level").
  - `Pipeline.GeneratedRecordExtracts` proves the round trip for every other length.
- `create_zip_file` opens its archive with ZIP64 extensions turned off (the fourth argument of `zipfile.ZipFile` is `allowZip64=False`). An archive then holds at most 65535 entries, and the write of entry 65535 raises `LargeZipFile`. So `create_zip_file(n)` returns an archive of `n` records only for `n <= 65535`; for larger `n` it raises (`Generation.CreateZipFile`).

## Left out

- The ZIP container format (headers, CRC, `ZIP_STORED`): an archive is an ordered list of named payloads.
- The other ZIP64 thresholds (a central directory beyond 2 GiB offset or size): only the entry-count limit is modelled. Generated records are a few hundred bytes each, so 65535 of them stay far below those sizes.
- ElementTree's byte-level parsing and serialisation: a payload stands for the tree it parses to, or for a parse failure.
- UTF-8 decoding: modelled only through that parse outcome.
- `Generation.GenerateXmlContents`: returns the tree that `ET.tostring` serialises, not its bytes.
- The `random` module and the uniformity of its choices: the drawn values are parameters, constrained only to their ranges.
- Logging calls.
- The exception kinds `BadZipFile`, `OSError` and generic exceptions: these are merged. All of them end the scan with the stats gathered so far.
- Python's `-O` flag, which would strip the `assert`s in `get_xml_stats`: the model treats them as failures.
- The `__main__` demo block of modules/stats.py and the command-line script test-zips-of-xmls.py: both are file and argument plumbing, and neither is part of this model.
- Element attributes are an ordered list. `get` returns the first match, although a parsed document never repeats an attribute name.
- Strings are sequences of Unicode scalar values, so lone surrogates are not represented.
- Pipeline.Stored: assumes that a stored record reads back as the same tree after the ZIP round trip, UTF-8 decoding and `ET.fromstring(ET.tostring(t))`. The assumption is reasonable here because ids and object names are alphanumeric and contain no markup (`Utils.RandomStrEncoding`), but ElementTree's serialiser is not part of this model. `Pipeline.GeneratedArchiveScans` rests on it.
- `Csv.Writer.WriteRows`: appends all rendered rows in one step rather than looping over them; the buffer it leaves is the same.
- `Csv.Writer`: stands for a `csv.writer` together with its `StringIO`; `getvalue` is the `buffer` field.

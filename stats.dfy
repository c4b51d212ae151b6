/**
 * modules/stats.py: extracting one record's id, level and object names
 * (`get_xml_stats`), scanning an archive of records (`get_zip_stats`), and
 * flattening the extracted records into two CSV tables (`stats_to_csv_data`).
 */
module Stats {
  import opened Wrappers
  import opened Xml
  import Csv
  import Text

  // ---- get_xml_stats ----

  /** The keys of `SEARCH_PATHS`. */
  datatype Key = Id | Level | Objects

  /** `SEARCH_PATHS`: any element named "id", any element named "level", any element tagged "objects". */
  function SearchPath(key: Key): (p: Path)
    ensures forall e :: Selects(p, e) <==>
      match key
      case Id => Get(e, "name") == Some("id")
      case Level => Get(e, "name") == Some("level")
      case Objects => e.tag == "objects"
  {
    match key
    case Id => AnyWithAttr("name", "id")
    case Level => AnyWithAttr("name", "level")
    case Objects => Tagged("objects")
  }

  /** The outcome of decoding an entry's bytes as UTF-8 and parsing them with `ET.fromstring`. */
  datatype XmlInput = Unparsable | Parsed(root: Element)

  /** The exception extraction raises: the parser's error, or one of the two assertions. */
  datatype ExtractError = NotWellFormed | NotUnique(key: Key, found: nat) | NoValue

  /** One extracted record; `objectNames` holds `None` for an object without a name. */
  datatype Stat = Stat(id: string, level: string, objectNames: seq<Option<string>>)

  /** `find_unique_el`: the element the search path selects below the root, if it selects exactly one. */
  function FindUniqueEl(root: Element, key: Key): (r: Result<Element, ExtractError>)
    ensures r.Ok? <==> CountBelow(root, SearchPath(key)) == 1
    ensures r.Ok? ==> r.value in Descendants(root) && Selects(SearchPath(key), r.value)
  {
    var found := FindAll(root, SearchPath(key));
    FindAllCount(root, SearchPath(key));
    if |found| == 1 then
      SelectMember(SearchPath(key), Descendants(root), found[0]);
      Ok(found[0])
    else Err(NotUnique(key, |found|))
  }

  /** The element carries a non-empty `value` attribute equal to `v`. */
  predicate HasValue(el: Element, v: string) {
    Get(el, "value") == Some(v) && v != ""
  }

  /** `get_val`: the `value` attribute, which must be present and non-empty. */
  function GetVal(el: Element): (r: Result<string, ExtractError>)
    ensures r.Ok? <==> Get(el, "value").Some? && Get(el, "value").value != ""
    ensures r.Ok? ==> HasValue(el, r.value)
  {
    match Get(el, "value")
    case None => Err(NoValue)
    case Some(v) => if v == "" then Err(NoValue) else Ok(v)
  }

  /** `[object.get('name') for object in objects]`: one entry per child, whatever its tag. */
  function ObjectNames(objects: Element): (names: seq<Option<string>>)
    ensures |names| == |objects.children|
  {
    seq(|objects.children|, i requires 0 <= i < |objects.children| => Get(objects.children[i], "name"))
  }

  /** `get_xml_stats`. */
  function GetXmlStats(x: XmlInput): (r: Result<Stat, ExtractError>)
    ensures x.Unparsable? ==> r == Err(NotWellFormed)
  {
    match x
    case Unparsable => Err(NotWellFormed)
    case Parsed(root) =>
      var idEl :- FindUniqueEl(root, Id);
      var id :- GetVal(idEl);
      var levelEl :- FindUniqueEl(root, Level);
      var level :- GetVal(levelEl);
      var objects :- FindUniqueEl(root, Objects);
      Ok(Stat(id, level, ObjectNames(objects)))
  }

  /** `e` is the one and only element below `root` that the search path of `key` selects. */
  ghost predicate IsUniqueMatch(root: Element, key: Key, e: Element) {
    CountBelow(root, SearchPath(key)) == 1 && e in Descendants(root) && Selects(SearchPath(key), e)
  }

  /** `names` lists the `name` attribute of each child of `objects`, in order. */
  ghost predicate ListsNamesOf(names: seq<Option<string>>, objects: Element) {
    |names| == |objects.children| &&
    forall i :: 0 <= i < |names| ==> names[i] == Get(objects.children[i], "name")
  }

  /**
   * What a record holds: exactly one element below the root is named "id" and
   * its value is `s.id`, exactly one is named "level" and its value is `s.level`
   * (both values non-empty), and exactly one is tagged "objects", whose children
   * give `s.objectNames`.
   */
  ghost predicate Describes(root: Element, s: Stat) {
    (exists e :: IsUniqueMatch(root, Id, e) && HasValue(e, s.id)) &&
    (exists e :: IsUniqueMatch(root, Level, e) && HasValue(e, s.level)) &&
    (exists e :: IsUniqueMatch(root, Objects, e) && ListsNamesOf(s.objectNames, e))
  }

  /** Whatever extraction returns is what the record holds. */
  lemma ExtractSound(root: Element)
    ensures GetXmlStats(Parsed(root)).Ok? ==> Describes(root, GetXmlStats(Parsed(root)).value)
  {
    var r := GetXmlStats(Parsed(root));
    if r.Ok? {
      var idEl := FindUniqueEl(root, Id).value;
      var levelEl := FindUniqueEl(root, Level).value;
      var objects := FindUniqueEl(root, Objects).value;
      assert IsUniqueMatch(root, Id, idEl) && HasValue(idEl, r.value.id);
      assert IsUniqueMatch(root, Level, levelEl) && HasValue(levelEl, r.value.level);
      assert IsUniqueMatch(root, Objects, objects) && ListsNamesOf(r.value.objectNames, objects);
    }
  }

  lemma FindUniqueElOf(root: Element, key: Key, e: Element)
    requires IsUniqueMatch(root, key, e)
    ensures FindUniqueEl(root, key) == Ok(e)
  {
    FindAllUnique(root, SearchPath(key), e);
  }

  /** Extraction in terms of the three elements it finds. */
  lemma ExtractFrom(root: Element, idEl: Element, levelEl: Element, objects: Element)
    requires FindUniqueEl(root, Id) == Ok(idEl) && FindUniqueEl(root, Level) == Ok(levelEl)
    requires FindUniqueEl(root, Objects) == Ok(objects)
    requires GetVal(idEl).Ok? && GetVal(levelEl).Ok?
    ensures GetXmlStats(Parsed(root)) == Ok(Stat(GetVal(idEl).value, GetVal(levelEl).value, ObjectNames(objects)))
  {
  }

  /** Extraction succeeds on every record that holds `s`, and returns `s`. */
  lemma ExtractComplete(root: Element, s: Stat)
    requires Describes(root, s)
    ensures GetXmlStats(Parsed(root)) == Ok(s)
  {
    var idEl :| IsUniqueMatch(root, Id, idEl) && HasValue(idEl, s.id);
    var levelEl :| IsUniqueMatch(root, Level, levelEl) && HasValue(levelEl, s.level);
    var objects :| IsUniqueMatch(root, Objects, objects) && ListsNamesOf(s.objectNames, objects);
    FindUniqueElOf(root, Id, idEl);
    FindUniqueElOf(root, Level, levelEl);
    FindUniqueElOf(root, Objects, objects);
    assert ObjectNames(objects) == s.objectNames;
    ExtractFrom(root, idEl, levelEl, objects);
  }

  /** So extraction fails exactly on the records that hold no stat at all. */
  lemma ExtractFailsIff(root: Element)
    ensures GetXmlStats(Parsed(root)).Err? <==> forall s :: !Describes(root, s)
  {
    ExtractSound(root);
    if s :| Describes(root, s) {
      ExtractComplete(root, s);
    }
  }

  /** In particular a record fails when any search path finds no element or more than one. */
  lemma NotUniqueRejected(root: Element, key: Key)
    requires CountBelow(root, SearchPath(key)) != 1
    ensures GetXmlStats(Parsed(root)).Err?
  {
    ExtractSound(root);
  }

  // ---- get_zip_stats ----

  /** `re.match(r".*\.xml", name)` succeeds by reading `name[..i]` with `.*` (no line feed) and then ".xml". */
  ghost predicate TemplateMatchAt(name: string, i: int) {
    0 <= i && i + 4 <= |name| && name[i..i + 4] == ".xml" &&
    forall k :: 0 <= k < i ==> name[k] != '\n'
  }

  lemma TemplateMatchShift(name: string)
    requires name != [] && name[0] != '\n' && !(|name| >= 4 && name[..4] == ".xml")
    ensures (exists i :: TemplateMatchAt(name[1..], i)) <==> (exists i :: TemplateMatchAt(name, i))
  {
    if i :| TemplateMatchAt(name[1..], i) {
      assert name[i + 1..i + 5] == name[1..][i..i + 4];
      assert TemplateMatchAt(name, i + 1);
    }
    if i :| TemplateMatchAt(name, i) {
      assert i != 0;
      assert name[1..][i - 1..i + 3] == name[i..i + 4];
      assert TemplateMatchAt(name[1..], i - 1);
    }
  }

  /**
   * `re.match(XML_TEMPLATE, name)`: anchored at the start only, so any name in
   * which ".xml" occurs before the first line feed matches; case-sensitive.
   */
  function MatchesXmlTemplate(name: string): (b: bool)
    ensures b <==> exists i :: TemplateMatchAt(name, i)
  {
    if |name| >= 4 && name[..4] == ".xml" then
      assert TemplateMatchAt(name, 0);
      true
    else if name == [] || name[0] == '\n' then
      false
    else
      TemplateMatchShift(name);
      MatchesXmlTemplate(name[1..])
  }

  /** What `zip_f.open(info).read()` delivers: the entry's bytes, or an error (bad CRC, truncated data). */
  datatype Payload = ReadFailure | Bytes(xml: XmlInput)

  datatype Entry = Entry(name: string, payload: Payload)

  /** What `zipfile.ZipFile(zip_fname)` yields: an error (`BadZipFile`, `OSError`), or the entries of `filelist` in order. */
  datatype ArchiveSource = Unopenable | Opened(entries: seq<Entry>)

  /** Reading and extracting one entry; `None` when either raises. */
  function ProcessEntry(p: Payload): (r: Option<Stat>)
    ensures r.None? <==> p.ReadFailure? || GetXmlStats(p.xml).Err?
    ensures r.Some? ==> p.xml.Parsed? && Describes(p.xml.root, r.value)
  {
    match p
    case ReadFailure => None
    case Bytes(x) =>
      if GetXmlStats(x).Ok? then
        ExtractSound(x.root);
        Some(GetXmlStats(x).value)
      else None
  }

  /** The entries whose names match the template, in archive order. */
  function XmlEntries(entries: seq<Entry>): (r: seq<Entry>)
    ensures |r| <= |entries|
  {
    if entries == [] then []
    else (if MatchesXmlTemplate(entries[0].name) then [entries[0]] else []) + XmlEntries(entries[1..])
  }

  /** The filter keeps exactly the entries whose names match. */
  lemma {:induction false} XmlEntriesMember(entries: seq<Entry>, x: Entry)
    ensures x in XmlEntries(entries) <==> x in entries && MatchesXmlTemplate(x.name)
  {
    if entries != [] {
      assert entries == [entries[0]] + entries[1..];
      XmlEntriesMember(entries[1..], x);
    }
  }

  /** The filter keeps archive order: it works entry by entry. */
  lemma {:induction false} XmlEntriesAppend(a: seq<Entry>, b: seq<Entry>)
    ensures XmlEntries(a + b) == XmlEntries(a) + XmlEntries(b)
  {
    if a == [] {
      assert a + b == b;
    } else {
      var ab := a + b;
      assert ab[0] == a[0] && ab[1..] == a[1..] + b;
      XmlEntriesAppend(a[1..], b);
      var h := if MatchesXmlTemplate(a[0].name) then [a[0]] else [];
      calc {
        XmlEntries(ab);
        h + XmlEntries(a[1..] + b);
        h + (XmlEntries(a[1..]) + XmlEntries(b));
        (h + XmlEntries(a[1..])) + XmlEntries(b);
      }
    }
  }

  /** The stats `get_zip_stats` collects from the entries: the first failure ends the scan. */
  function ScanEntries(entries: seq<Entry>): (r: seq<Stat>)
    ensures |r| <= |XmlEntries(entries)|
  {
    if entries == [] then []
    else if !MatchesXmlTemplate(entries[0].name) then ScanEntries(entries[1..])
    else match ProcessEntry(entries[0].payload)
      case None => []
      case Some(s) => [s] + ScanEntries(entries[1..])
  }

  /** `get_zip_stats` on an archive: nothing when it cannot be opened. */
  function ScanArchive(src: ArchiveSource): (r: seq<Stat>)
    ensures src.Unopenable? ==> r == []
    ensures src.Opened? ==> IsScanOf(src.entries, r)
  {
    match src
    case Unopenable => []
    case Opened(entries) =>
      ScanEntriesIsScan(entries);
      ScanEntries(entries)
  }

  /** The extraction outcome of each entry, in order. */
  function Outcomes(entries: seq<Entry>): (r: seq<Option<Stat>>)
    ensures |r| == |entries|
  {
    if entries == [] then [] else [ProcessEntry(entries[0].payload)] + Outcomes(entries[1..])
  }

  lemma {:induction false} OutcomesAt(entries: seq<Entry>, i: int)
    requires 0 <= i < |entries|
    ensures Outcomes(entries)[i] == ProcessEntry(entries[i].payload)
  {
    if i > 0 {
      OutcomesAt(entries[1..], i - 1);
    }
  }

  /** `stats` lists the outcomes up to the first failure: what a loop that stops at the first `None` gathers. */
  ghost predicate IsPrefixScan(outs: seq<Option<Stat>>, stats: seq<Stat>) {
    |stats| <= |outs| &&
    (forall i :: 0 <= i < |stats| ==> outs[i] == Some(stats[i])) &&
    (|stats| < |outs| ==> outs[|stats|].None?)
  }

  /**
   * `stats` is a prefix of the extraction results of the matching entries: the
   * first |stats| matching entries extract to `stats`, in order, and if the scan
   * stopped early it is because the next matching entry failed.
   */
  ghost predicate IsScanOf(entries: seq<Entry>, stats: seq<Stat>) {
    IsPrefixScan(Outcomes(XmlEntries(entries)), stats)
  }

  /** One step of the scan, on an archive whose first entry is `e`. */
  lemma ScanEntriesCons(e: Entry, rest: seq<Entry>)
    ensures XmlEntries([e] + rest) == (if MatchesXmlTemplate(e.name) then [e] else []) + XmlEntries(rest)
    ensures ScanEntries([e] + rest) ==
      if !MatchesXmlTemplate(e.name) then ScanEntries(rest)
      else if ProcessEntry(e.payload).None? then []
      else [ProcessEntry(e.payload).value] + ScanEntries(rest)
  {
    assert ([e] + rest)[0] == e && ([e] + rest)[1..] == rest;
  }

  /** The same step, at position `i` of a fixed archive. */
  lemma ScanEntriesAt(entries: seq<Entry>, i: int)
    requires 0 <= i < |entries|
    ensures ScanEntries(entries[i..]) ==
      if !MatchesXmlTemplate(entries[i].name) then ScanEntries(entries[i + 1..])
      else if ProcessEntry(entries[i].payload).None? then []
      else [ProcessEntry(entries[i].payload).value] + ScanEntries(entries[i + 1..])
  {
    assert entries[i..] == [entries[i]] + entries[i + 1..];
    ScanEntriesCons(entries[i], entries[i + 1..]);
  }

  lemma PrefixScanCons(o: Option<Stat>, outs: seq<Option<Stat>>, stats: seq<Stat>)
    requires IsPrefixScan(outs, stats)
    ensures o.None? ==> IsPrefixScan([o] + outs, [])
    ensures o.Some? ==> IsPrefixScan([o] + outs, [o.value] + stats)
  {
    if o.Some? {
      var all, st := [o] + outs, [o.value] + stats;
      forall i | 0 <= i < |st|
        ensures all[i] == Some(st[i])
      {
        if i > 0 {
          assert all[i] == outs[i - 1] && st[i] == stats[i - 1];
        }
      }
    }
  }

  lemma {:induction false} ScanEntriesIsScan(entries: seq<Entry>)
    ensures IsScanOf(entries, ScanEntries(entries))
  {
    if entries != [] {
      var e, rest := entries[0], entries[1..];
      ScanEntriesIsScan(rest);
      if MatchesXmlTemplate(e.name) {
        var m := XmlEntries(rest);
        var o := ProcessEntry(e.payload);
        assert XmlEntries(entries) == [e] + m;
        assert Outcomes([e] + m) == [o] + Outcomes(m) by {
          assert ([e] + m)[0] == e && ([e] + m)[1..] == m;
        }
        PrefixScanCons(o, Outcomes(m), ScanEntries(rest));
        if o.None? {
          assert ScanEntries(entries) == [];
        } else {
          assert ScanEntries(entries) == [o.value] + ScanEntries(rest);
        }
      } else {
        assert XmlEntries(entries) == XmlEntries(rest);
      }
    }
  }

  /** The prefix property pins the result down: at most one sequence of stats is a scan of the entries. */
  lemma ScanIsUnique(entries: seq<Entry>, s1: seq<Stat>, s2: seq<Stat>)
    requires IsScanOf(entries, s1) && IsScanOf(entries, s2)
    ensures s1 == s2
  {
    var outs := Outcomes(XmlEntries(entries));
    assert |s1| == |s2|;
    forall i | 0 <= i < |s1|
      ensures s1[i] == s2[i]
    {
      assert outs[i] == Some(s1[i]);
    }
  }

  /** When every matching entry extracts, the scan returns one stat per matching entry, in order. */
  lemma ScanAllExtracted(entries: seq<Entry>)
    requires forall e :: e in XmlEntries(entries) ==> ProcessEntry(e.payload).Some?
    ensures |ScanEntries(entries)| == |XmlEntries(entries)|
    ensures forall i :: 0 <= i < |ScanEntries(entries)| ==>
      Some(ScanEntries(entries)[i]) == ProcessEntry(XmlEntries(entries)[i].payload)
  {
    ScanEntriesIsScan(entries);
    var m := XmlEntries(entries);
    if |ScanEntries(entries)| < |m| {
      OutcomesAt(m, |ScanEntries(entries)|);
    }
    forall i | 0 <= i < |ScanEntries(entries)|
      ensures Some(ScanEntries(entries)[i]) == ProcessEntry(m[i].payload)
    {
      OutcomesAt(m, i);
    }
  }

  /** `get_zip_stats`: never raises; on any exception it returns what it gathered so far. */
  method GetZipStats(src: ArchiveSource) returns (stats: seq<Stat>)
    ensures stats == ScanArchive(src)
    ensures src.Unopenable? ==> stats == []
    ensures src.Opened? ==> IsScanOf(src.entries, stats)
  {
    stats := [];
    if src.Unopenable? {
      return;
    }
    var entries := src.entries;
    var i := 0;
    while i < |entries|
      invariant 0 <= i <= |entries|
      invariant ScanEntries(entries) == stats + ScanEntries(entries[i..])
    {
      var entry := entries[i];
      ScanEntriesAt(entries, i);
      if !MatchesXmlTemplate(entry.name) {
        i := i + 1;
        continue;
      }
      var stat := ProcessEntry(entry.payload);
      if stat.None? {
        break;
      }
      stats := stats + [stat.value];
      i := i + 1;
    }
    assert stats == ScanEntries(entries);
    ScanEntriesIsScan(entries);
  }

  // ---- stats_to_csv_data ----

  const LEVEL_HEADER: Csv.Row := [Some("ID"), Some("Level")]
  const OBJECT_HEADER: Csv.Row := [Some("ID"), Some("Object name")]

  /** The row the first table gets for one stat. */
  function LevelRow(s: Stat): Csv.Row {
    [Some(s.id), Some(s.level)]
  }

  /** The rows the second table gets for one stat: one per object, an unnamed object giving an empty field. */
  function ObjectRows(s: Stat): (rows: seq<Csv.Row>)
    ensures |rows| == |s.objectNames|
  {
    seq(|s.objectNames|, j requires 0 <= j < |s.objectNames| => [Some(s.id), s.objectNames[j]])
  }

  /** The body of the first table, as the loop over the stats builds it. */
  function LevelTable(stats: seq<Stat>): seq<Csv.Row> {
    if stats == [] then [] else LevelTable(stats[..|stats| - 1]) + [LevelRow(stats[|stats| - 1])]
  }

  /** The body of the second table, as the loop over the stats builds it. */
  function ObjectTable(stats: seq<Stat>): seq<Csv.Row> {
    if stats == [] then [] else ObjectTable(stats[..|stats| - 1]) + ObjectRows(stats[|stats| - 1])
  }

  /** The number of objects over all the stats. */
  function TotalObjects(stats: seq<Stat>): nat {
    if stats == [] then 0 else TotalObjects(stats[..|stats| - 1]) + |stats[|stats| - 1].objectNames|
  }

  /** The first table has one row per stat, holding that stat's id and level, in order. */
  lemma {:induction false} LevelTableAt(stats: seq<Stat>, i: int)
    requires 0 <= i < |stats|
    ensures |LevelTable(stats)| == |stats|
    ensures LevelTable(stats)[i] == [Some(stats[i].id), Some(stats[i].level)]
  {
    var n := |stats| - 1;
    assert stats[..n][..] == stats[..n];
    if i < n {
      LevelTableAt(stats[..n], i);
    } else {
      LevelTableLength(stats[..n]);
    }
  }

  lemma {:induction false} LevelTableLength(stats: seq<Stat>)
    ensures |LevelTable(stats)| == |stats|
  {
    if stats != [] {
      LevelTableLength(stats[..|stats| - 1]);
    }
  }

  lemma {:induction false} ObjectTableLength(stats: seq<Stat>)
    ensures |ObjectTable(stats)| == TotalObjects(stats)
  {
    if stats != [] {
      ObjectTableLength(stats[..|stats| - 1]);
    }
  }

  /** The objects of the stats before `i` come first in the second table. */
  lemma {:induction false} TotalObjectsPrefix(stats: seq<Stat>, i: int)
    requires 0 <= i < |stats|
    ensures TotalObjects(stats[..i]) + |stats[i].objectNames| <= TotalObjects(stats)
  {
    var n := |stats| - 1;
    if i < n {
      assert stats[..n][..i] == stats[..i];
      TotalObjectsPrefix(stats[..n], i);
    } else {
      assert stats[..i] == stats[..n];
    }
  }

  /**
   * The second table holds, for the i-th stat, one row per object: the j-th
   * object of the i-th stat sits right after the objects of the stats before it.
   */
  lemma {:induction false} ObjectTableAt(stats: seq<Stat>, i: int, j: int)
    requires 0 <= i < |stats| && 0 <= j < |stats[i].objectNames|
    ensures |ObjectTable(stats)| == TotalObjects(stats)
    ensures TotalObjects(stats[..i]) + j < TotalObjects(stats)
    ensures ObjectTable(stats)[TotalObjects(stats[..i]) + j] == [Some(stats[i].id), stats[i].objectNames[j]]
  {
    ObjectTableLength(stats);
    TotalObjectsPrefix(stats, i);
    var n := |stats| - 1;
    var init := stats[..n];
    ObjectTableLength(init);
    if i < n {
      assert init[..i] == stats[..i];
      ObjectTableAt(init, i, j);
    } else {
      assert init == stats[..i];
      assert ObjectTable(stats)[TotalObjects(init) + j] == ObjectRows(stats[i])[j];
    }
  }

  /** The text of the first CSV file: its header, then the first table. */
  function LevelReport(stats: seq<Stat>): string {
    Csv.RenderRows([LEVEL_HEADER] + LevelTable(stats))
  }

  /** The text of the second CSV file: its header, then the second table. */
  function ObjectReport(stats: seq<Stat>): string {
    Csv.RenderRows([OBJECT_HEADER] + ObjectTable(stats))
  }

  /** With no stats, each file holds just its header. */
  lemma ReportStart()
    ensures LevelReport([]) == Csv.RenderRow(LEVEL_HEADER)
    ensures ObjectReport([]) == Csv.RenderRow(OBJECT_HEADER)
  {
    assert [LEVEL_HEADER] + LevelTable([]) == [LEVEL_HEADER];
    assert [OBJECT_HEADER] + ObjectTable([]) == [OBJECT_HEADER];
    Csv.RenderOneRow(LEVEL_HEADER);
    Csv.RenderOneRow(OBJECT_HEADER);
  }

  /** Taking in one more stat appends its rows to both files. */
  lemma ReportStep(stats: seq<Stat>, i: int)
    requires 0 <= i < |stats|
    ensures LevelReport(stats[..i + 1]) == LevelReport(stats[..i]) + Csv.RenderRow(LevelRow(stats[i]))
    ensures ObjectReport(stats[..i + 1]) == ObjectReport(stats[..i]) + Csv.RenderRows(ObjectRows(stats[i]))
  {
    var p := stats[..i + 1];
    assert p[..|p| - 1] == stats[..i] && p[|p| - 1] == stats[i];
    var r := LevelTable(stats[..i]);
    assert [LEVEL_HEADER] + (r + [LevelRow(stats[i])]) == ([LEVEL_HEADER] + r) + [LevelRow(stats[i])];
    Csv.RenderRowsAppend([LEVEL_HEADER] + r, [LevelRow(stats[i])]);
    Csv.RenderOneRow(LevelRow(stats[i]));
    var o := ObjectTable(stats[..i]);
    assert [OBJECT_HEADER] + (o + ObjectRows(stats[i])) == ([OBJECT_HEADER] + o) + ObjectRows(stats[i]);
    Csv.RenderRowsAppend([OBJECT_HEADER] + o, ObjectRows(stats[i]));
  }

  /** `stats_to_csv_data`: both files are written row by row and returned UTF-8 encoded. */
  method StatsToCsvData(stats: seq<Stat>) returns (data1: seq<Text.byte>, data2: seq<Text.byte>)
    ensures data1 == Text.Utf8Encode(LevelReport(stats))
    ensures data2 == Text.Utf8Encode(ObjectReport(stats))
  {
    var writer1 := new Csv.Writer();
    writer1.WriteRow(LEVEL_HEADER);
    var writer2 := new Csv.Writer();
    writer2.WriteRow(OBJECT_HEADER);
    ReportStart();
    assert stats[..0] == [];
    for i := 0 to |stats|
      invariant writer1.buffer == LevelReport(stats[..i])
      invariant writer2.buffer == ObjectReport(stats[..i])
    {
      ReportStep(stats, i);
      writer1.WriteRow(LevelRow(stats[i]));
      writer2.WriteRows(ObjectRows(stats[i]));
    }
    assert stats[..|stats|] == stats;
    data1 := Text.Utf8Encode(writer1.buffer);
    data2 := Text.Utf8Encode(writer2.buffer);
  }

  /** Every row of either file has a field, so reading the files back gives each table's texts. */
  lemma ReportsReadBack(stats: seq<Stat>)
    ensures Csv.ReadRecords(LevelReport(stats)) == Some(Csv.TextsOf([LEVEL_HEADER] + LevelTable(stats)))
    ensures Csv.ReadRecords(ObjectReport(stats)) == Some(Csv.TextsOf([OBJECT_HEADER] + ObjectTable(stats)))
  {
    TablesHaveTwoFields(stats);
    HeaderedRowsNonEmpty(LEVEL_HEADER, LevelTable(stats));
    Csv.ReadRenderedRows([LEVEL_HEADER] + LevelTable(stats));
    HeaderedRowsNonEmpty(OBJECT_HEADER, ObjectTable(stats));
    Csv.ReadRenderedRows([OBJECT_HEADER] + ObjectTable(stats));
  }

  lemma HeaderedRowsNonEmpty(header: Csv.Row, body: seq<Csv.Row>)
    requires |header| == 2 && forall r :: r in body ==> |r| == 2
    ensures forall i :: 0 <= i < |[header] + body| ==> |([header] + body)[i]| >= 1
  {
    forall i | 0 <= i < |[header] + body|
      ensures |([header] + body)[i]| >= 1
    {
      if i > 0 {
        assert ([header] + body)[i] == body[i - 1];
      }
    }
  }

  lemma {:induction false} TablesHaveTwoFields(stats: seq<Stat>)
    ensures forall r :: r in LevelTable(stats) ==> |r| == 2
    ensures forall r :: r in ObjectTable(stats) ==> |r| == 2
  {
    if stats != [] {
      TablesHaveTwoFields(stats[..|stats| - 1]);
    }
  }
}

/**
 * modules/generation.py: building one random record tree in place with
 * `ET.SubElement` (`generate_xml_contents`) and an archive of such records
 * named "0.xml", "1.xml", ... (`create_zip_file`). Every random draw is an
 * explicit parameter (`Draws`), so the model is deterministic in it.
 */
module Generation {
  import opened Wrappers
  import opened Xml
  import Text
  import Utils

  // `CONSTANTS`
  const MAX_STR_LEN: int := 10
  const LEVEL_MIN: int := 1
  const LEVEL_MAX: int := 100
  const OBJECTS_MIN: int := 1
  const OBJECTS_MAX: int := 10

  /**
   * The values one call of `generate_xml_contents` takes from `random`: the
   * id's length and characters, the level, the number of objects, and the
   * characters of each object's name (as indices into the alphabet).
   */
  datatype Draws = Draws(idLen: int, idPicks: seq<nat>, level: int, objectsNum: int, namePicks: seq<seq<nat>>)

  /** Alphabet indices for each object name, `max_str_len` of them per name. */
  predicate AreNamePicks(maxStrLen: int, namePicks: seq<seq<nat>>) {
    forall j :: 0 <= j < |namePicks| ==> |namePicks[j]| == maxStrLen && Utils.AreChoices(namePicks[j])
  }

  /** `randint` and `choice` only return values in their ranges. */
  predicate Drawable(maxStrLen: int, d: Draws) {
    1 <= d.idLen <= maxStrLen && |d.idPicks| == d.idLen && Utils.AreChoices(d.idPicks) &&
    LEVEL_MIN <= d.level <= LEVEL_MAX &&
    OBJECTS_MIN <= d.objectsNum <= OBJECTS_MAX && |d.namePicks| == d.objectsNum &&
    AreNamePicks(maxStrLen, d.namePicks)
  }

  /** `randint(1, max_str_len)` raises `ValueError` when the range is empty. */
  datatype GenError = EmptyRange

  /** A `var` element with its `name` and `value` attributes, in that order. */
  function VarElement(name: string, value: string): Element {
    Element("var", [("name", name), ("value", value)], [])
  }

  /** An `object` element with its one `name` attribute. */
  function ObjectElement(name: string): Element {
    Element("object", [("name", name)], [])
  }

  function ObjectElements(names: seq<string>): (es: seq<Element>)
    ensures |es| == |names|
  {
    seq(|names|, j requires 0 <= j < |names| => ObjectElement(names[j]))
  }

  /** The shape of every record: an id `var`, a level `var`, then `objects` holding one `object` per name. */
  function RecordTree(id: string, level: string, names: seq<string>): Element {
    Element("root", [], [VarElement("id", id), VarElement("level", level), Element("objects", [], ObjectElements(names))])
  }

  function IdValue(maxStrLen: int, d: Draws): (id: string)
    requires Drawable(maxStrLen, d)
    ensures 1 <= |id| <= maxStrLen
  {
    Utils.RandomStr(d.idLen, d.idPicks)
  }

  /** `str(level)`: the decimal text of a level in [LEVEL_MIN, LEVEL_MAX]. */
  function LevelText(maxStrLen: int, d: Draws): (s: string)
    requires Drawable(maxStrLen, d)
    ensures forall k :: 0 <= k < |s| ==> Text.IsDigit(s[k])
    ensures LEVEL_MIN <= Text.DecimalValue(s) <= LEVEL_MAX
    ensures s[0] != '0'
  {
    Text.DecimalRoundTrip(d.level);
    Text.DecimalText(d.level)
  }

  /** The object names drawn with `random_str(max_str_len)`, one per pick list. */
  function ObjectNames(maxStrLen: int, namePicks: seq<seq<nat>>): (names: seq<string>)
    requires AreNamePicks(maxStrLen, namePicks)
    ensures |names| == |namePicks|
    ensures forall j :: 0 <= j < |names| ==> |names[j]| == if maxStrLen <= 0 then 0 else maxStrLen
  {
    seq(|namePicks|, j requires 0 <= j < |namePicks| => Utils.RandomStr(maxStrLen, namePicks[j]))
  }

  /** The record `generate_xml_contents(max_str_len)` builds from the draws `d`. */
  function Generated(maxStrLen: int, d: Draws): (r: Element)
    requires Drawable(maxStrLen, d)
    ensures r.tag == "root" && |r.children| == 3 && r.children[2].tag == "objects"
    ensures |r.children[2].children| == d.objectsNum
  {
    RecordTree(IdValue(maxStrLen, d), LevelText(maxStrLen, d), ObjectNames(maxStrLen, d.namePicks))
  }

  /** The bounds `CONSTANTS` sets, as they show in a generated record. */
  lemma GeneratedBounds(maxStrLen: int, d: Draws)
    requires Drawable(maxStrLen, d)
    ensures var e := Generated(maxStrLen, d);
      |e.children| == 3 &&
      e.children[0] == VarElement("id", IdValue(maxStrLen, d)) &&
      1 <= |IdValue(maxStrLen, d)| <= maxStrLen &&
      e.children[1] == VarElement("level", LevelText(maxStrLen, d)) &&
      LEVEL_MIN <= Text.DecimalValue(LevelText(maxStrLen, d)) <= LEVEL_MAX &&
      e.children[2].tag == "objects" &&
      OBJECTS_MIN <= |e.children[2].children| <= OBJECTS_MAX &&
      forall j :: 0 <= j < |e.children[2].children| ==>
        e.children[2].children[j].tag == "object" &&
        |e.children[2].children[j].attrs| == 1 &&
        e.children[2].children[j].attrs[0].0 == "name" &&
        |e.children[2].children[j].attrs[0].1| == maxStrLen
  {
  }

  lemma ObjectElementsSnoc(names: seq<string>, j: int)
    requires 0 <= j < |names|
    ensures ObjectElements(names[..j + 1]) == ObjectElements(names[..j]) + [ObjectElement(names[j])]
  {
  }

  /** The `for` loop of `generate_xml_contents`: appends one `object` per name to `objects`. */
  method AppendObjects(objects: Node, maxStrLen: int, namePicks: seq<seq<nat>>)
    requires objects.Valid() && objects.Value() == Element("objects", [], [])
    requires AreNamePicks(maxStrLen, namePicks)
    modifies objects
    ensures objects.Valid() && fresh(objects.Repr - old(objects.Repr))
    ensures objects.Value() == Element("objects", [], ObjectElements(ObjectNames(maxStrLen, namePicks)))
  {
    ghost var names := ObjectNames(maxStrLen, namePicks);
    for j := 0 to |namePicks|
      invariant objects.Valid() && fresh(objects.Repr - old(objects.Repr))
      invariant objects.Value() == Element("objects", [], ObjectElements(names[..j]))
    {
      var obj := objects.SubElement("object", [("name", Utils.RandomStr(maxStrLen, namePicks[j]))]);
      ObjectElementsSnoc(names, j);
    }
    assert names[..|namePicks|] == names;
  }

  /** The first part of the tree building: the root with its two `var`s and an empty `objects`. */
  method NewRecordRoot(id: string, level: string) returns (root: Node, objects: Node)
    ensures fresh(root.Repr) && root.Valid() && root.tag == "root" && root.attrib == []
    ensures |root.children| == 3 && root.children[2] == objects
    ensures root.children[0].Value() == VarElement("id", id)
    ensures root.children[1].Value() == VarElement("level", level)
    ensures objects.Repr == {objects} && objects.Valid() && objects.Value() == Element("objects", [], [])
  {
    root := new Node("root", []);
    var idVar := root.SubElement("var", [("name", "id"), ("value", id)]);
    assert root.children == [idVar];
    var levelVar := root.SubElement("var", [("name", "level"), ("value", level)]);
    assert root.children == [idVar, levelVar];
    objects := root.SubElement("objects", []);
  }

  /** The tree building of `generate_xml_contents`, once the id and level texts are drawn. */
  method BuildRecord(id: string, level: string, maxStrLen: int, namePicks: seq<seq<nat>>) returns (root: Node)
    requires AreNamePicks(maxStrLen, namePicks)
    ensures root.Valid()
    ensures root.Value() == RecordTree(id, level, ObjectNames(maxStrLen, namePicks))
  {
    var objects;
    root, objects := NewRecordRoot(id, level);
    var idVar, levelVar := root.children[0], root.children[1];
    ghost var idElement, levelElement := idVar.Value(), levelVar.Value();
    AppendObjects(objects, maxStrLen, namePicks);
    root.Repr := root.Repr + objects.Repr;
    assert idVar.Valid() && levelVar.Valid();
    assert root.children == [idVar, levelVar, objects];
    assert root !in objects.Repr && objects.Repr <= root.Repr;
    assert root.Valid();
    root.ThreeChildValues();
    assert idVar.Value() == idElement && levelVar.Value() == levelElement;
  }

  /**
   * `generate_xml_contents`: draws the id and the level, builds the tree with
   * `ET.SubElement` and returns it; the result stands for the serialised tree.
   */
  method GenerateXmlContents(maxStrLen: int, d: Draws) returns (r: Result<Element, GenError>)
    requires maxStrLen >= 1 ==> Drawable(maxStrLen, d)
    ensures maxStrLen < 1 ==> r == Err(EmptyRange)
    ensures maxStrLen >= 1 ==> r == Ok(Generated(maxStrLen, d))
  {
    if maxStrLen < 1 {
      return Err(EmptyRange);
    }
    var idVal := Utils.RandomStr(d.idLen, d.idPicks);
    var root := BuildRecord(idVal, Text.DecimalText(d.level), maxStrLen, d.namePicks);
    r := Ok(root.Value());
  }

  /** `create_xml_file`: a record with the default string length; it cannot fail. */
  method CreateXmlFile(d: Draws) returns (e: Element)
    requires Drawable(MAX_STR_LEN, d)
    ensures e == Generated(MAX_STR_LEN, d)
  {
    var r := GenerateXmlContents(MAX_STR_LEN, d);
    e := r.value;
  }

  /** The name of the `i`-th entry: f'{i}.xml'. */
  function EntryName(i: nat): (name: string)
    ensures |name| >= 5 && name[|name| - 4..] == ".xml"
  {
    Text.DecimalText(i) + ".xml"
  }

  /** Different entries get different names. */
  lemma EntryNamesDistinct(i: nat, j: nat)
    requires i != j
    ensures EntryName(i) != EntryName(j)
  {
    if EntryName(i) == EntryName(j) {
      var a, b := Text.DecimalText(i), Text.DecimalText(j);
      assert |a| == |b|;
      assert a == EntryName(i)[..|a|] && b == EntryName(j)[..|b|];
      Text.DecimalInjective(i, j);
    }
  }

  /**
   * `zipfile.ZIP_FILECOUNT_LIMIT`: the most entries an archive may hold without
   * ZIP64 extensions, which `create_zip_file` turns off (`allowZip64=False`).
   */
  const ZIP_FILECOUNT_LIMIT: int := 0xFFFF

  /** `zipfile.LargeZipFile`, raised by `writestr` when one more entry would need ZIP64 extensions. */
  datatype ZipError = LargeZipFile

  /** An in-memory archive that `writestr` appends (name, record) entries to; `ZIP_STORED` leaves records as they are. */
  class ZipArchiveWriter {
    var entries: seq<(string, Element)>

    constructor ()
      ensures entries == []
    {
      entries := [];
    }

    /**
     * `zip_file.writestr(name, data)` on an archive without ZIP64 extensions: it
     * raises, before writing anything, once the archive already holds
     * `ZIP_FILECOUNT_LIMIT` entries.
     */
    method WriteStr(name: string, data: Element) returns (r: Option<ZipError>)
      modifies this
      ensures r.Some? <==> old(|entries|) >= ZIP_FILECOUNT_LIMIT
      ensures r.Some? ==> r.value == LargeZipFile && entries == old(entries)
      ensures r.None? ==> entries == old(entries) + [(name, data)]
    {
      if |entries| >= ZIP_FILECOUNT_LIMIT {
        return Some(LargeZipFile);
      }
      entries := entries + [(name, data)];
      r := None;
    }
  }

  /**
   * The entries `create_zip_file(n)` writes for the indices of `range(n)`: the
   * i-th entry is "i.xml" holding the record of the i-th draws.
   */
  function GeneratedArchive(n: int, draws: seq<Draws>): (entries: seq<(string, Element)>)
    requires n <= |draws| && forall k :: 0 <= k < |draws| ==> Drawable(MAX_STR_LEN, draws[k])
    ensures |entries| == if n <= 0 then 0 else n
  {
    if n <= 0 then [] else seq(n, i requires 0 <= i < n => (EntryName(i), Generated(MAX_STR_LEN, draws[i])))
  }

  lemma GeneratedArchiveStep(i: nat, draws: seq<Draws>)
    requires i < |draws| && forall k :: 0 <= k < |draws| ==> Drawable(MAX_STR_LEN, draws[k])
    ensures GeneratedArchive(i + 1, draws) == GeneratedArchive(i, draws) + [(EntryName(i), Generated(MAX_STR_LEN, draws[i]))]
  {
  }

  /**
   * `create_zip_file`: one record per index in `range(xmls_num)`, written in
   * increasing order; the write of entry `ZIP_FILECOUNT_LIMIT` raises, so more
   * than `ZIP_FILECOUNT_LIMIT` records cannot be archived.
   */
  method CreateZipFile(xmlsNum: int, draws: seq<Draws>) returns (r: Result<seq<(string, Element)>, ZipError>)
    requires xmlsNum <= |draws| && forall k :: 0 <= k < |draws| ==> Drawable(MAX_STR_LEN, draws[k])
    ensures xmlsNum > ZIP_FILECOUNT_LIMIT ==> r == Err(LargeZipFile)
    ensures xmlsNum <= ZIP_FILECOUNT_LIMIT ==> r == Ok(GeneratedArchive(xmlsNum, draws))
  {
    var zipFile := new ZipArchiveWriter();
    var i := 0;
    while i < xmlsNum
      invariant 0 <= i <= (if xmlsNum < 0 then 0 else xmlsNum)
      invariant i <= ZIP_FILECOUNT_LIMIT
      invariant zipFile.entries == GeneratedArchive(i, draws)
    {
      var data := CreateXmlFile(draws[i]);
      var failed := zipFile.WriteStr(EntryName(i), data);
      if failed.Some? {
        return Err(failed.value);
      }
      GeneratedArchiveStep(i, draws);
      i := i + 1;
    }
    assert xmlsNum < 0 ==> GeneratedArchive(xmlsNum, draws) == GeneratedArchive(0, draws);
    r := Ok(zipFile.entries);
  }

  /** Every entry of a generated archive has a distinct name ending in ".xml", and holds a record of the expected shape. */
  lemma GeneratedArchiveEntries(n: int, draws: seq<Draws>)
    requires n <= |draws| && forall k :: 0 <= k < |draws| ==> Drawable(MAX_STR_LEN, draws[k])
    ensures forall i, j :: 0 <= i < j < |GeneratedArchive(n, draws)| ==>
      GeneratedArchive(n, draws)[i].0 != GeneratedArchive(n, draws)[j].0
    ensures forall i :: 0 <= i < |GeneratedArchive(n, draws)| ==>
      GeneratedArchive(n, draws)[i] == (EntryName(i), Generated(MAX_STR_LEN, draws[i]))
  {
    forall i, j | 0 <= i < j < |GeneratedArchive(n, draws)|
      ensures GeneratedArchive(n, draws)[i].0 != GeneratedArchive(n, draws)[j].0
    {
      EntryNamesDistinct(i, j);
    }
  }
}

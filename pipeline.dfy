/**
 * How modules/generation.py and modules/stats.py fit together: a generated
 * archive, read back by the scanner, yields one stat per record holding the
 * drawn id, level text and object names.
 */
module Pipeline {
  import opened Wrappers
  import opened Xml
  import Text
  import Utils
  import Stats
  import Generation

  /** The archive as the scanner sees it: each stored record, serialised and parsed back, gives the same tree. */
  function Stored(entries: seq<(string, Element)>): Stats.ArchiveSource {
    Stats.Opened(seq(|entries|, i requires 0 <= i < |entries| => Stats.Entry(entries[i].0, Stats.Bytes(Stats.Parsed(entries[i].1)))))
  }

  /** Object names as extraction reports them: every generated object has a name. */
  function Named(names: seq<string>): (r: seq<Option<string>>)
    ensures |r| == |names|
  {
    seq(|names|, j requires 0 <= j < |names| => Some(names[j]))
  }

  /** No `object` element is selected by a path that rejects each of them. */
  lemma {:induction false} ObjectsNotSelected(names: seq<string>, p: Path)
    requires forall j :: 0 <= j < |names| ==> !Selects(p, Generation.ObjectElement(names[j]))
    ensures CountInAll(Generation.ObjectElements(names), p) == 0
  {
    if names != [] {
      var es := Generation.ObjectElements(names);
      assert es[1..] == Generation.ObjectElements(names[1..]);
      ObjectsNotSelected(names[1..], p);
    }
  }

  lemma CountThree(a: Element, b: Element, c: Element, p: Path)
    ensures CountInAll([a, b, c], p) == CountIn(a, p) + CountIn(b, p) + CountIn(c, p)
  {
    assert [a, b, c][1..] == [b, c] && [b, c][1..] == [c] && [c][1..] == [];
    assert CountInAll([c], p) == CountIn(c, p) + CountInAll([], p);
    assert CountInAll([b, c], p) == CountIn(b, p) + CountInAll([c], p);
    assert CountInAll([a, b, c], p) == CountIn(a, p) + CountInAll([b, c], p);
  }

  lemma SubtreesThree(a: Element, b: Element, c: Element)
    ensures a in Subtrees([a, b, c]) && b in Subtrees([a, b, c]) && c in Subtrees([a, b, c])
  {
    assert [a, b, c][1..] == [b, c] && [b, c][1..] == [c] && [c][1..] == [];
    assert Subtrees([b, c]) == Subtree(b) + Subtrees([c]);
    assert Subtrees([a, b, c]) == Subtree(a) + Subtrees([b, c]);
  }

  /** Where each search path finds its element in a record of the generated shape. */
  function KeyIndex(key: Stats.Key): int {
    match key
    case Id => 0
    case Level => 1
    case Objects => 2
  }

  /** In a record of the generated shape each search path selects exactly the child it is meant for. */
  lemma RecordMatch(id: string, level: string, names: seq<string>, key: Stats.Key)
    requires forall j :: 0 <= j < |names| ==> names[j] != "id" && names[j] != "level"
    ensures var root := Generation.RecordTree(id, level, names);
      Stats.IsUniqueMatch(root, key, root.children[KeyIndex(key)])
  {
    var root := Generation.RecordTree(id, level, names);
    var cs := root.children;
    var p := Stats.SearchPath(key);
    ObjectsNotSelected(names, p);
    CountThree(cs[0], cs[1], cs[2], p);
    SubtreesThree(cs[0], cs[1], cs[2]);
    assert CountIn(cs[0], p) == (if key.Id? then 1 else 0);
    assert CountIn(cs[1], p) == (if key.Level? then 1 else 0);
    assert CountIn(cs[2], p) == (if key.Objects? then 1 else 0);
  }

  /**
   * A record of the generated shape extracts to its own id, level text and
   * object names, provided no object is named "id" or "level".
   */
  lemma RecordTreeExtracts(id: string, level: string, names: seq<string>)
    requires id != "" && level != ""
    requires forall j :: 0 <= j < |names| ==> names[j] != "id" && names[j] != "level"
    ensures Stats.GetXmlStats(Stats.Parsed(Generation.RecordTree(id, level, names))) ==
      Ok(Stats.Stat(id, level, Named(names)))
  {
    var root := Generation.RecordTree(id, level, names);
    var cs := root.children;
    RecordMatch(id, level, names, Stats.Id);
    Stats.FindUniqueElOf(root, Stats.Id, cs[0]);
    RecordMatch(id, level, names, Stats.Level);
    Stats.FindUniqueElOf(root, Stats.Level, cs[1]);
    RecordMatch(id, level, names, Stats.Objects);
    Stats.FindUniqueElOf(root, Stats.Objects, cs[2]);
    assert Stats.GetVal(cs[0]) == Ok(id) && Stats.GetVal(cs[1]) == Ok(level);
    assert Stats.ObjectNames(cs[2]) == Named(names);
    Stats.ExtractFrom(root, cs[0], cs[1], cs[2]);
  }

  /**
   * Every record `generate_xml_contents(max_str_len)` builds extracts to its
   * draws, unless `max_str_len` is 2 or 5: then an object can be named "id"
   * or "level" (see `ShortNamesBreakExtraction` and `FiveLetterNamesBreakExtraction`).
   */
  lemma GeneratedRecordExtracts(maxStrLen: int, d: Generation.Draws)
    requires Generation.Drawable(maxStrLen, d) && maxStrLen != 2 && maxStrLen != 5
    ensures Stats.GetXmlStats(Stats.Parsed(Generation.Generated(maxStrLen, d))) ==
      Ok(Stats.Stat(Generation.IdValue(maxStrLen, d), Generation.LevelText(maxStrLen, d),
                    Named(Generation.ObjectNames(maxStrLen, d.namePicks))))
  {
    var names := Generation.ObjectNames(maxStrLen, d.namePicks);
    forall j | 0 <= j < |names|
      ensures names[j] != "id" && names[j] != "level"
    {
      assert |names[j]| == maxStrLen;
    }
    RecordTreeExtracts(Generation.IdValue(maxStrLen, d), Generation.LevelText(maxStrLen, d), names);
  }

  lemma PicksSpellId()
    ensures Utils.AreChoices([8, 3]) && Utils.RandomStr(2, [8, 3]) == "id"
  {
    Utils.RandomCharsetContents();
    var n := Utils.RandomStr(2, [8, 3]);
    assert Utils.RANDOM_CHARSET[8] == 'i' && Utils.RANDOM_CHARSET[3] == 'd';
    assert |n| == 2 && n[0] == 'i' && n[1] == 'd';
  }

  lemma OneObjectNamedId()
    ensures CountIn(Element("objects", [], Generation.ObjectElements(["id"])), Stats.SearchPath(Stats.Id)) == 1
  {
    var p := Stats.SearchPath(Stats.Id);
    var objs := Generation.ObjectElements(["id"]);
    assert objs == [Generation.ObjectElement("id")] && objs[1..] == [];
    assert CountInAll(objs, p) == CountIn(objs[0], p) + CountInAll(objs[1..], p);
  }

  /** A record with an object named "id" has two elements named "id", so extraction fails. */
  lemma ObjectNamedIdRejected(id: string, level: string)
    ensures Stats.GetXmlStats(Stats.Parsed(Generation.RecordTree(id, level, ["id"]))).Err?
  {
    var root := Generation.RecordTree(id, level, ["id"]);
    var cs := root.children;
    var p := Stats.SearchPath(Stats.Id);
    CountThree(cs[0], cs[1], cs[2], p);
    OneObjectNamedId();
    assert CountBelow(root, p) == 2;
    Stats.NotUniqueRejected(root, Stats.Id);
  }

  /** With `max_str_len = 2` the round trip fails: an object named "id" makes the id lookup ambiguous. */
  lemma ShortNamesBreakExtraction()
    ensures var d := Generation.Draws(1, [0], 1, 1, [[8, 3]]);
      Generation.Drawable(2, d) &&
      Generation.ObjectNames(2, d.namePicks) == ["id"] &&
      Stats.GetXmlStats(Stats.Parsed(Generation.Generated(2, d))).Err?
  {
    var d := Generation.Draws(1, [0], 1, 1, [[8, 3]]);
    PicksSpellId();
    assert Generation.ObjectNames(2, d.namePicks) == ["id"];
    ObjectNamedIdRejected(Generation.IdValue(2, d), Generation.LevelText(2, d));
  }

  lemma PicksSpellLevel()
    ensures Utils.AreChoices([11, 4, 21, 4, 11]) && Utils.RandomStr(5, [11, 4, 21, 4, 11]) == "level"
  {
    Utils.RandomCharsetContents();
    var n := Utils.RandomStr(5, [11, 4, 21, 4, 11]);
    assert Utils.RANDOM_CHARSET[11] == 'l' && Utils.RANDOM_CHARSET[4] == 'e' && Utils.RANDOM_CHARSET[21] == 'v';
    assert |n| == 5 && n[0] == 'l' && n[1] == 'e' && n[2] == 'v' && n[3] == 'e' && n[4] == 'l';
  }

  lemma OneObjectNamedLevel()
    ensures CountIn(Element("objects", [], Generation.ObjectElements(["level"])), Stats.SearchPath(Stats.Level)) == 1
  {
    var p := Stats.SearchPath(Stats.Level);
    var objs := Generation.ObjectElements(["level"]);
    assert objs == [Generation.ObjectElement("level")] && objs[1..] == [];
    assert CountInAll(objs, p) == CountIn(objs[0], p) + CountInAll(objs[1..], p);
  }

  /** A record with an object named "level" has two elements named "level", so extraction fails. */
  lemma ObjectNamedLevelRejected(id: string, level: string)
    ensures Stats.GetXmlStats(Stats.Parsed(Generation.RecordTree(id, level, ["level"]))).Err?
  {
    var root := Generation.RecordTree(id, level, ["level"]);
    var cs := root.children;
    var p := Stats.SearchPath(Stats.Level);
    CountThree(cs[0], cs[1], cs[2], p);
    OneObjectNamedLevel();
    assert CountBelow(root, p) == 2;
    Stats.NotUniqueRejected(root, Stats.Level);
  }

  /** With `max_str_len = 5` the round trip fails too: an object named "level" makes the level lookup ambiguous. */
  lemma FiveLetterNamesBreakExtraction()
    ensures var d := Generation.Draws(1, [0], 1, 1, [[11, 4, 21, 4, 11]]);
      Generation.Drawable(5, d) &&
      Generation.ObjectNames(5, d.namePicks) == ["level"] &&
      Stats.GetXmlStats(Stats.Parsed(Generation.Generated(5, d))).Err?
  {
    var d := Generation.Draws(1, [0], 1, 1, [[11, 4, 21, 4, 11]]);
    PicksSpellLevel();
    assert Generation.ObjectNames(5, d.namePicks) == ["level"];
    ObjectNamedLevelRejected(Generation.IdValue(5, d), Generation.LevelText(5, d));
  }

  /** Every entry name `create_zip_file` gives matches the scanner's template. */
  lemma EntryNameMatches(i: nat)
    ensures Stats.MatchesXmlTemplate(Generation.EntryName(i))
  {
    var name := Generation.EntryName(i);
    var k := |Text.DecimalText(i)|;
    assert name[k..k + 4] == ".xml";
    forall m | 0 <= m < k
      ensures name[m] != '\n'
    {
      assert name[m] == Text.DecimalText(i)[m];
    }
    assert Stats.TemplateMatchAt(name, k);
  }

  /** A stored archive whose every name matches the template keeps all its entries for extraction. */
  lemma {:induction false} AllMatch(entries: seq<Stats.Entry>)
    requires forall i :: 0 <= i < |entries| ==> Stats.MatchesXmlTemplate(entries[i].name)
    ensures Stats.XmlEntries(entries) == entries
  {
    if entries != [] {
      AllMatch(entries[1..]);
    }
  }

  /** The stat a generated record extracts to. */
  function DrawnStat(d: Generation.Draws): Stats.Stat
    requires Generation.Drawable(Generation.MAX_STR_LEN, d)
  {
    Stats.Stat(Generation.IdValue(Generation.MAX_STR_LEN, d), Generation.LevelText(Generation.MAX_STR_LEN, d),
               Named(Generation.ObjectNames(Generation.MAX_STR_LEN, d.namePicks)))
  }

  /** Scanning an archive of `n` generated records gives back `n` stats, the i-th holding the i-th draws. */
  lemma GeneratedArchiveScans(n: nat, draws: seq<Generation.Draws>)
    requires n <= |draws| && forall k :: 0 <= k < |draws| ==> Generation.Drawable(Generation.MAX_STR_LEN, draws[k])
    ensures var stats := Stats.ScanArchive(Stored(Generation.GeneratedArchive(n, draws)));
      |stats| == n && forall i :: 0 <= i < n ==> stats[i] == DrawnStat(draws[i])
  {
    var archive := Generation.GeneratedArchive(n, draws);
    var entries := Stored(archive).entries;
    Generation.GeneratedArchiveEntries(n, draws);
    forall i | 0 <= i < |entries|
      ensures Stats.MatchesXmlTemplate(entries[i].name)
      ensures Stats.ProcessEntry(entries[i].payload) == Some(DrawnStat(draws[i]))
    {
      EntryNameMatches(i);
      GeneratedRecordExtracts(Generation.MAX_STR_LEN, draws[i]);
    }
    AllMatch(entries);
    forall e | e in Stats.XmlEntries(entries)
      ensures Stats.ProcessEntry(e.payload).Some?
    {
    }
    Stats.ScanAllExtracted(entries);
  }
}

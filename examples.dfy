/** Worked instances of the general properties, on small concrete inputs. */
module Examples {
  import opened Wrappers
  import opened Xml
  import Stats
  import Generation

  /** The template is anchored at the start only, so a name merely containing ".xml" passes. */
  lemma TemplateAcceptsInnerXml()
    ensures Stats.MatchesXmlTemplate("0.xml") && Stats.MatchesXmlTemplate("a.xml.bak")
  {
    assert Stats.TemplateMatchAt("0.xml", 1);
    assert Stats.TemplateMatchAt("a.xml.bak", 1);
  }

  /** The template is case-sensitive, and its `.*` does not cross a line feed. */
  lemma TemplateRejects()
    ensures !Stats.MatchesXmlTemplate("1.txt")
    ensures !Stats.MatchesXmlTemplate("a.XML")
    ensures !Stats.MatchesXmlTemplate("a\n.xml")
  {
    assert !Stats.MatchesXmlTemplate("txt") && !Stats.MatchesXmlTemplate("XML");
    assert ".txt"[..4][1] != ".xml"[1] && ".txt"[1..] == "txt";
    assert Stats.MatchesXmlTemplate(".txt") == Stats.MatchesXmlTemplate("txt");
    assert "1.txt"[..4][0] != ".xml"[0] && "1.txt"[1..] == ".txt";
    assert ".XML"[..4][1] != ".xml"[1] && ".XML"[1..] == "XML";
    assert Stats.MatchesXmlTemplate(".XML") == Stats.MatchesXmlTemplate("XML");
    assert "a.XML"[..4][0] != ".xml"[0] && "a.XML"[1..] == ".XML";
    assert "a\n.xml"[..4][0] != ".xml"[0] && "a\n.xml"[1..] == "\n.xml";
  }

  /** A record with two elements named "id" is rejected, whatever else it holds. */
  lemma DuplicateIdRejected()
    ensures Stats.GetXmlStats(Stats.Parsed(Element("root", [], [
      Generation.VarElement("id", "A"), Generation.VarElement("id", "B"),
      Generation.VarElement("level", "5"), Element("objects", [], [])]))).Err?
  {
    var cs := [Generation.VarElement("id", "A"), Generation.VarElement("id", "B"),
               Generation.VarElement("level", "5"), Element("objects", [], [])];
    var root := Element("root", [], cs);
    var p := Stats.SearchPath(Stats.Id);
    assert cs[1..][1..][1..][1..] == [];
    assert CountBelow(root, p) == 2;
    Stats.NotUniqueRejected(root, Stats.Id);
  }

  /** A matching entry, a skipped one and a matching one give the two stats in archive order. */
  lemma ScanThree(e0: Stats.Entry, e1: Stats.Entry, e2: Stats.Entry, s0: Stats.Stat, s2: Stats.Stat)
    requires Stats.MatchesXmlTemplate(e0.name) && Stats.ProcessEntry(e0.payload) == Some(s0)
    requires !Stats.MatchesXmlTemplate(e1.name)
    requires Stats.MatchesXmlTemplate(e2.name) && Stats.ProcessEntry(e2.payload) == Some(s2)
    ensures Stats.ScanEntries([e0, e1, e2]) == [s0, s2]
  {
    assert [e2][1..] == [];
    assert Stats.ScanEntries([e2]) == [s2];
    assert [e1, e2][1..] == [e2];
    assert Stats.ScanEntries([e1, e2]) == [s2];
    assert [e0, e1, e2][1..] == [e1, e2];
  }

  /** Names that fail the template are skipped; the others are extracted in archive order. */
  lemma ScanSkipsOtherNames(e0: Stats.Entry, e1: Stats.Entry, e2: Stats.Entry, s0: Stats.Stat, s2: Stats.Stat)
    requires e0.name == "0.xml" && e1.name == "1.txt" && e2.name == "a.xml.bak"
    requires Stats.ProcessEntry(e0.payload) == Some(s0) && Stats.ProcessEntry(e2.payload) == Some(s2)
    ensures Stats.ScanArchive(Stats.Opened([e0, e1, e2])) == [s0, s2]
  {
    TemplateAcceptsInnerXml();
    TemplateRejects();
    ScanThree(e0, e1, e2, s0, s2);
  }

  /** The first entry that fails to extract ends the scan, even when later entries would extract. */
  lemma ScanStopsAtFailure(p0: Stats.Payload, p1: Stats.Payload, s1: Stats.Stat)
    requires Stats.ProcessEntry(p0).None? && Stats.ProcessEntry(p1) == Some(s1)
    ensures Stats.ScanArchive(Stats.Opened([Stats.Entry("0.xml", p0), Stats.Entry("1.xml", p1)])) == []
  {
    TemplateAcceptsInnerXml();
  }
}

/** Worked instances of the CSV reports for a single stat. */
module ReportExamples {
  import opened Wrappers
  import Csv
  import Stats

  lemma LevelHeaderText()
    ensures Csv.RenderRow(Stats.LEVEL_HEADER) == "ID,Level\r\n"
  {
    assert "ID" + "," + "Level" + "\r\n" == "ID,Level\r\n";
    assert !Csv.NeedsQuotes("ID") && !Csv.NeedsQuotes("Level");
    Csv.PlainPairRow(Some("ID"), Some("Level"));
  }

  lemma ObjectHeaderNameIsPlain()
    ensures !Csv.NeedsQuotes("Object name")
  {
    Csv.NeedsQuotesIff("Object name");
  }

  lemma ObjectHeaderPieces()
    ensures "ID" + "," + "Object name" + "\r\n" == "ID,Object name\r\n"
  {
  }

  lemma ObjectHeaderText()
    ensures Csv.RenderRow(Stats.OBJECT_HEADER) == "ID,Object name\r\n"
  {
    ObjectHeaderPieces();
    ObjectHeaderNameIsPlain();
    Csv.PlainPairRow(Some("ID"), Some("Object name"));
  }

  lemma JoinLevel(h: string, id: string, level: string)
    ensures h + (id + "," + level + "\r\n") == h + id + "," + level + "\r\n"
  {
  }

  lemma JoinObjects(h: string, id: string, a: string)
    ensures h + ((id + "," + a + "\r\n") + (id + ",\r\n")) == h + id + "," + a + "\r\n" + id + ",\r\n"
  {
  }

  /** A stat with plain texts gives the header and one unquoted row in the first file. */
  lemma LevelReportOfOneStat(st: Stats.Stat)
    requires !Csv.NeedsQuotes(st.id) && !Csv.NeedsQuotes(st.level)
    ensures Stats.LevelReport([st]) == "ID,Level\r\n" + st.id + "," + st.level + "\r\n"
  {
    var stats := [st];
    assert stats[..0] == [] && stats[..1] == stats;
    Stats.ReportStart();
    Stats.ReportStep(stats, 0);
    LevelHeaderText();
    Csv.PlainPairRow(Some(st.id), Some(st.level));
    JoinLevel("ID,Level\r\n", st.id, st.level);
  }

  /** The rows of a named and an unnamed object: the unnamed one gives an empty second field. */
  lemma ObjectRowsText(st: Stats.Stat, a: string)
    requires !Csv.NeedsQuotes(st.id) && !Csv.NeedsQuotes(a)
    requires st.objectNames == [Some(a), None]
    ensures Csv.RenderRows(Stats.ObjectRows(st)) == (st.id + "," + a + "\r\n") + (st.id + ",\r\n")
  {
    var rows := Stats.ObjectRows(st);
    assert rows == [[Some(st.id), Some(a)], [Some(st.id), None]];
    Csv.PlainPairRow(Some(st.id), Some(a));
    Csv.PlainPairRow(Some(st.id), None);
    Csv.RenderRowsAppend([rows[0]], [rows[1]]);
    assert rows == [rows[0]] + [rows[1]];
    Csv.RenderOneRow(rows[0]);
    Csv.RenderOneRow(rows[1]);
  }

  /** The second file for the same stat: its header, then one row per object in order. */
  lemma ObjectReportOfOneStat(st: Stats.Stat, a: string)
    requires !Csv.NeedsQuotes(st.id) && !Csv.NeedsQuotes(a)
    requires st.objectNames == [Some(a), None]
    ensures Stats.ObjectReport([st]) == "ID,Object name\r\n" + st.id + "," + a + "\r\n" + st.id + ",\r\n"
  {
    var stats := [st];
    assert stats[..0] == [] && stats[..1] == stats;
    Stats.ReportStart();
    Stats.ReportStep(stats, 0);
    ObjectHeaderText();
    ObjectRowsText(st, a);
    JoinObjects("ID,Object name\r\n", st.id, a);
  }
}

/**
 * `formatCitation` and its helpers: a parsed citation back to a citation
 * string in one of three styles. Statutes are written in the Norwegian LOV
 * style when their id is a LOV id and in the legacy SFS style otherwise;
 * bills, reports and case law ignore the style.
 */
module CitationFormatter {
  import opened Wrappers
  import opened Text
  import opened CitationParser

  /** `CitationFormat` */
  datatype CitationFormat = FullFormat | ShortFormat | PinpointFormat

  /** The style `formatCitation` uses when its caller gives none. */
  const DefaultFormat: CitationFormat := FullFormat

  /** `isNorwegianLov`: `/^LOV-\d{4}-\d{2}-\d{2}(?:-[A-Za-z0-9]+)?$/i`, the shape of group 1 of the LOV pattern. */
  predicate IsNorwegianLov(documentId: string) {
    IsLovId(documentId)
  }

  /** `formatCitation` */
  function FormatCitation(citation: ParsedCitation, format: CitationFormat): string {
    if !citation.valid then citation.raw
    else
      match citation.docType
      case Statute => FormatStatute(citation, format)
      case Bill => FormatBill(citation)
      case Sou => "NOU " + citation.documentId
      case Ds => "Ds " + citation.documentId
      case CaseLaw => FormatCaseLaw(citation)
  }

  /** `formatStatute` */
  function FormatStatute(citation: ParsedCitation, format: CitationFormat): string {
    var id := citation.documentId;
    var chapter := citation.chapter;
    var section := citation.section;
    var isLov := IsNorwegianLov(id);
    var chapterLabel := if isLov then "kapittel" else "kap.";
    match format
    case PinpointFormat =>
      if Truthy(chapter) && Truthy(section) then
        (if isLov then "kapittel " + chapter.value + " § " + section.value
         else chapter.value + " kap. " + section.value + " §")
      else if Truthy(section) then section.value + " §"
      else id
    case ShortFormat =>
      if Truthy(chapter) && Truthy(section) then id + " " + chapter.value + ":" + section.value
      else if Truthy(section) then (if isLov then id + " § " + section.value else id + " " + section.value + " §")
      else id
    case FullFormat =>
      var result := if isLov then "LOV " + id else "SFS " + id;
      var result' := if Truthy(chapter) then
          (if isLov then result + " " + chapterLabel + " " + chapter.value
           else result + " " + chapter.value + " " + chapterLabel)
        else result;
      if Truthy(section) then result' + " " + section.value + " §" else result'
  }

  /** `formatBill`: a Norwegian id with its session in parentheses stays as it is. */
  function FormatBill(citation: ParsedCitation): string {
    if Contains(citation.documentId, "(") then citation.documentId else "Prop. " + citation.documentId
  }

  /** `formatCaseLaw`: the id, then the page after a connector chosen by the id's prefix. */
  function FormatCaseLaw(citation: ParsedCitation): string {
    var id := citation.documentId;
    var page := citation.page;
    var parts := [id];
    var parts' :=
      if StartsWith(id, "NJA") then (if Truthy(page) then parts + ["s. " + page.value] else parts)
      else if StartsWith(id, "Rt.") then (if Truthy(page) then parts + ["s. " + page.value] else parts)
      else if StartsWith(id, "HFD") then (if Truthy(page) then parts + ["ref. " + page.value] else parts)
      else (if Truthy(page) then parts + ["avsnitt " + page.value] else parts);
    Join(parts', " ")
  }

  /** `formatProvisionRef` */
  function FormatProvisionRef(chapter: Option<string>, section: string): string {
    if Truthy(chapter) then chapter.value + ":" + section else section
  }

  // ---------------------------------------------------------------------------
  // The styles

  /** An invalid citation is given back as it was written. */
  lemma InvalidFormatsRaw(c: ParsedCitation, format: CitationFormat)
    requires !c.valid
    ensures FormatCitation(c, format) == c.raw
  {
  }

  /** The short style of a statute, in both eras. */
  lemma ShortStyle(c: ParsedCitation)
    requires c.valid && c.docType == Statute
    ensures var r := FormatCitation(c, ShortFormat); var id := c.documentId;
      && (Truthy(c.chapter) && Truthy(c.section) ==> r == id + " " + c.chapter.value + ":" + c.section.value)
      && (!Truthy(c.chapter) && Truthy(c.section) && IsNorwegianLov(id) ==> r == id + " § " + c.section.value)
      && (!Truthy(c.chapter) && Truthy(c.section) && !IsNorwegianLov(id) ==> r == id + " " + c.section.value + " §")
      && (!Truthy(c.section) ==> r == id)
  {
  }

  /** The full style: `LOV id kapittel C S §` or `SFS id C kap. S §`, each part present when set. */
  lemma FullStyle(c: ParsedCitation)
    requires c.valid && c.docType == Statute
    ensures var r := FormatCitation(c, FullFormat); var id := c.documentId;
      var sec := if Truthy(c.section) then " " + c.section.value + " §" else "";
      && (IsNorwegianLov(id) ==> r == "LOV " + id + (if Truthy(c.chapter) then " kapittel " + c.chapter.value else "") + sec)
      && (!IsNorwegianLov(id) ==> r == "SFS " + id + (if Truthy(c.chapter) then " " + c.chapter.value + " kap." else "") + sec)
  {
  }

  /** The pinpoint style leaves the id out whenever there is a section. */
  lemma PinpointStyle(c: ParsedCitation)
    requires c.valid && c.docType == Statute
    ensures var r := FormatCitation(c, PinpointFormat);
      && (Truthy(c.chapter) && Truthy(c.section) && IsNorwegianLov(c.documentId) ==>
            r == "kapittel " + c.chapter.value + " § " + c.section.value)
      && (Truthy(c.chapter) && Truthy(c.section) && !IsNorwegianLov(c.documentId) ==>
            r == c.chapter.value + " kap. " + c.section.value + " §")
      && (!Truthy(c.chapter) && Truthy(c.section) ==> r == c.section.value + " §")
      && (!Truthy(c.section) ==> r == c.documentId)
  {
  }

  lemma ExampleFullText(id: string)
    requires id == "LOV-2018-06-15-38"
    ensures "LOV " + id + (" kapittel " + "3") + (" " + "5" + " §") == "LOV LOV-2018-06-15-38 kapittel 3 5 §"
  {
  }

  /** The doc comment's full example: the code writes the section before `§`, not after it. */
  lemma FullStyleExample(c: ParsedCitation)
    requires c.valid && c.docType == Statute && c.documentId == "LOV-2018-06-15-38"
    requires c.chapter == Some("3") && c.section == Some("5")
    ensures FormatCitation(c, FullFormat) == "LOV LOV-2018-06-15-38 kapittel 3 5 §"
  {
    ExampleLovId(c.documentId);
    assert Truthy(c.chapter) && Truthy(c.section);
    FullStyle(c);
    ExampleFullText(c.documentId);
  }

  /** Bills, reports and Ds ignore the style. */
  lemma OtherStyles(c: ParsedCitation, format: CitationFormat)
    requires c.valid && c.docType in {Bill, Sou, Ds}
    ensures var r := FormatCitation(c, format);
      && (c.docType == Bill && Contains(c.documentId, "(") ==> r == c.documentId)
      && (c.docType == Bill && !Contains(c.documentId, "(") ==> r == "Prop. " + c.documentId)
      && (c.docType == Sou ==> r == "NOU " + c.documentId)
      && (c.docType == Ds ==> r == "Ds " + c.documentId)
  {
  }

  /** Every Norwegian proposition id keeps its form: it holds the session's parenthesis. */
  lemma PropIdFormatsAsItself(c: ParsedCitation, num: string, session: string, format: CitationFormat)
    requires c.valid && c.docType == Bill && c.documentId == PropId(num, session)
    ensures FormatCitation(c, format) == c.documentId
  {
    var id := PropId(num, session);
    assert id[5 + |num|..5 + |num| + 2] == " (";
    assert LitAt(id, 5 + |num| + 1, "(");
    ContainsAt(id, "(", 5 + |num| + 1);
  }

  // ---------------------------------------------------------------------------
  // Case law

  /** The connector before the page, decided by the id's prefix alone. */
  function CaseLawConnector(id: string): string {
    if StartsWith(id, "NJA") || StartsWith(id, "Rt.") then "s."
    else if StartsWith(id, "HFD") then "ref."
    else "avsnitt"
  }

  /** Case law is the id, then the connector and the page when there is one. */
  lemma CaseLawStyle(c: ParsedCitation, format: CitationFormat)
    requires c.valid && c.docType == CaseLaw
    ensures FormatCitation(c, format) ==
      if Truthy(c.page) then c.documentId + " " + CaseLawConnector(c.documentId) + " " + c.page.value
      else c.documentId
  {
    var id := c.documentId;
    if Truthy(c.page) {
      var tail := CaseLawConnector(id) + " " + c.page.value;
      assert "s." + " " + c.page.value == "s. " + c.page.value;
      assert "ref." + " " + c.page.value == "ref. " + c.page.value;
      assert "avsnitt" + " " + c.page.value == "avsnitt " + c.page.value;
      assert [id] + [tail] == [id, tail] && [id, tail][1..] == [tail];
      assert Join([id, tail], " ") == id + " " + tail;
    } else {
      assert Join([id], " ") == id;
    }
  }

  // ---------------------------------------------------------------------------
  // Round trips

  /**
   * The short style of a LOV citation with a section and no chapter parses
   * back to the same statute, id and section.
   */
  lemma ShortStyleReparses(raw: string)
    requires var p := ParseCitation(raw);
      p.valid && p.docType == Statute && IsNorwegianLov(p.documentId) && p.chapter.None? && p.section.Some?
    ensures var p := ParseCitation(raw); var q := ParseCitation(FormatCitation(p, ShortFormat));
      q.valid && q.docType == Statute && q.documentId == p.documentId && q.chapter.None? && q.section == p.section
  {
    var p := ParseCitation(raw);
    LovResultShape(raw);
    assert Truthy(p.section) && !Truthy(p.chapter);
    ShortStyle(p);
    var f := FormatCitation(p, ShortFormat);
    assert f == p.documentId + " § " + p.section.value;
    LovShortFormParses(p.documentId, p.section.value);
  }

  /** A provision reference under a chapter splits back at its first colon. */
  lemma ProvisionRefSplits(chapter: Option<string>, section: string)
    requires Truthy(chapter) && forall k :: 0 <= k < |chapter.value| ==> chapter.value[k] != ':'
    ensures var r := FormatProvisionRef(chapter, section); var n := |chapter.value|;
      IndexOf(r, ":", 0) == Some(n) && r[..n] == chapter.value && r[n + 1..] == section
  {
    var r := FormatProvisionRef(chapter, section);
    var n := |chapter.value|;
    assert r[n..n + 1] == ":";
    assert LitAt(r, n, ":");
    forall k | 0 <= k < n ensures !LitAt(r, k, ":") {
      assert r[k] == chapter.value[k];
      assert r[k..k + 1][0] == r[k];
    }
    var v := IndexOf(r, ":", 0);
    assert v.Some?;
    assert !(v.value < n) && !(v.value > n);
  }

  /** Without a truthy chapter the reference is the bare section. */
  lemma ProvisionRefBare(chapter: Option<string>, section: string)
    requires !Truthy(chapter)
    ensures FormatProvisionRef(chapter, section) == section
  {
  }
}

# Norwegian legal-citation core, modelled in Dafny

This project models the text-to-structure logic of a Norwegian legal-citation
server, and proves properties of the model. The logic covered is:

- **Statute structural parser.** This is `parseLovdataProvisions`. It makes one
  pass over the lines of a statute dump. It keeps an active chapter, a pending
  chapter, the open section and its content buffer, the set of emitted
  provision references and the last ordinal per chapter. Five ordered checks
  reject spurious `N §` lines, and two counters record what was discarded.
- **Citation grammar.** `parseCitation` tries eleven recognisers in a fixed
  order, and the first match wins. `detectDocumentType` is a cheap type
  sniffer. `formatCitation` prints a citation in the full, short or pinpoint
  style, in the Norwegian LOV era or the legacy SFS era.
- **Amendment extractor.** It turns `20 juni 2014 nr. 49` into
  `LOV-2014-06-20-49` through the month table. The `endret`, `tilføyd` and
  `opphevet` scans run in that order and share one seen-set. A bare LOV-id
  scan is the fallback. It also reads repeal data from document metadata and
  finds the effective date.
- **EU-reference and cross-reference extractors.**
  - The EU parser runs ordered pattern scans with first-seen de-duplication.
    It reads each match through a capture-group waterfall, pivots two-digit
    years and normalises the community name. It cuts a 100-character context
    window around the match and classifies by keyword.
  - The EU parser also generates and parses document ids and CELEX numbers.
  - The cross-reference extractor has three `while (exec)` loops over
    module-level global regular expressions.
- **Script helpers.**
  - From the definition extractor: term and definition clean-up, the quality
    filter, and de-duplication that keeps the longest definition.
  - From the Lovdata ingestion: LOV identifier parsing, and section-reference
    and date normalisation.
  - Also from the ingestion: status inference, table-row flattening,
    de-duplication of content parts, and the per-reference merge of
    provisions.

Layout: one module per source file, plus three shared modules.

- `Wrappers` holds `Option` and `Result`.
- `Text` holds the character classes and JavaScript's `\s`. It also holds
  `trim`, collapsing whitespace into one space, and `toLowerCase` and
  `toUpperCase` on ASCII and Latin-1 letters. `Utf16Length` models `.length`
  where the code compares a length with a limit: the title limit of 100, the
  table-marker limit of 16 and the definition length bounds. Match positions
  and the EU context window are counted in characters (code points), not in
  UTF-16 units.
- `Scan` is the regular-expression search driver.
  - `FirstMatch` is `exec` from a `lastIndex`.
  - `MatchAll`/`AllFrom` are `matchAll` and the `while (exec)` loop.
  - `Dedup` is first-seen de-duplication. `DedupRef` is an independent
    front-to-back reference definition and `DedupMatchesRef` proves the two
    agree.
  - `PushAll` is the loop step over a seen-set.
  - `Merged` is the `Map` merge that keeps the best entry per key.

Every regular expression is a hand-written recogniser at a fixed position. A
recogniser returns the match length and the capture groups, with group 0 the
whole match, as in a `RegExpMatchArray`.

The code is modelled in its own form:

- **Provision parser.** Its state is the class `LovdataParser`, whose fields
  are the closure's locals. Its methods are proved equal to the functional
  `Step` and `FlushState`, and the properties are lemmas over those functions.
- **Cross-reference extractor.** The class `CrossRefExtractor.Patterns` holds
  the three `lastIndex` fields.
- **Other loops.** The loops of the amendment, EU, definition and ingestion
  code are methods. Each is proved equal to a specification function, and the
  lemmas are proved about that function.
- **Members with no row.** Some predicates are transcriptions of one
  regular expression or one boolean test: `IsLikelyTitle`, `IsLawNote`,
  `StartsWithLowercase`, `IsValidDefinition`, `IsLikelyDefinitionProvision`,
  `IsValidLovId` and `DetectDocumentType`. They have no row of their own, and
  the lemmas below state their properties.
- Some functions model a source function but carry no contract of their
  own. Their properties are stated by the lemmas named here, which have rows:
  - `CitationParser.ParseCitation`: `EmptyCitation`, `ResultShape`, the rule
    lemmas `LovRule` to `SfsRule`, `ParseTrimmedCases` and `DetectAgrees`.
  - `CitationFormatter.FormatCitation`, `FormatStatute`, `FormatBill`,
    `FormatCaseLaw` and `IsNorwegianLov`: `InvalidFormatsRaw`, `ShortStyle`,
    `FullStyle`, `PinpointStyle`, `OtherStyles`, `CaseLawStyle` and
    `ShortStyleReparses`. `FormatProvisionRef`: `ProvisionRefSplits` and
    `ProvisionRefBare`.
  - `AmendmentParser.ParseLovReference`: `LovReferenceValid`,
    `DateRefTextParses` and `ParseDateRefText`. `AmendmentParser.EffectiveDate`:
    `EffectiveDateIso`, `EffectiveDateFallback` and `EffectivePhraseParses`.
  - `EuReferenceParser.ParseCommunity`: `CommunityOfDigits`,
    `CommunityNameParses` and `LegacyCommunities`. `ExtractContext`:
    `ContextWindow` and `ShortTextContext`. `PivotYear`: `PivotTwoDigits` and
    `PivotLarge`. `GenerateEUDocumentId` and `ParseEUDocumentId`:
    `DocumentIdRoundTrip`. `GenerateCelexNumber`: `CelexLayout`.
    `FormatEUReference`: `FullFormatExtendsShort` and `ShortFormatReparses`.
  - `LovdataProvisionParser.SectionOrdinal`: `TokenOrdinal`, `OrdinalOrder`,
    `LetteredSectionBetween` and `NumberOfOrdinal`.
    `LovdataProvisionParser.NormalizeSectionRef`: `SectionGroupNormalizes` and
    `TokenNormalized`.
- **Default styles.** `formatCitation` defaults to the full style and
  `formatEUReference` to the short one. These defaults are the constants
  `CitationFormatter.DefaultFormat` and `EuReferenceParser.DefaultEUFormat`.

Where the code and its doc comments disagree, the model follows the code:

- The full LOV style prints `LOV id kapittel C S §`, not `kapittel C § S`
  (`CitationFormatter.FullStyleExample`).
- The cross-reference patterns do not recognise the `kapittel X § Y` form
  (`CrossRefExtractor.KapittelFormNotRecognised`).
- The `Ot.prp.` alternative of the proposition pattern is not anchored. So
  `x Ot.prp. 4 (2001-2002)` parses as a bill, but `detectDocumentType` gives
  null for it (`CitationParser.UnanchoredOtPrpDisagrees`).
- `direktiv (Rådets) 95/46`: a parenthesised group that names an issuing body
  sends the waterfall into its first branch. That branch reads the number
  from a group 4 the pattern does not have, so the match is discarded
  (`EuReferenceParser.ParenDirectiveOutcome`).
- The comment on `generateCELEXNumber` describes a five-digit number
  `NNNNN`, but the code pads the number to four digits
  (`EuReferenceParser.CelexLayout`).

## Model

| member | source | states |
|---|---|---|
| LovdataProvisionParser.ChapterMatch | src/parsers/lovdata-provision-parser.ts:40-40 | A chapter line yields its chapter number: a non-empty run of digits that starts the line. |
| LovdataProvisionParser.SectionNumber | src/parsers/lovdata-provision-parser.ts:48-54 | `sectionNumber` is defined exactly when the section starts with a digit. |
| LovdataProvisionParser.NumberOfOrdinal | src/parsers/lovdata-provision-parser.ts:48-68 | Wherever `sectionOrdinal` is defined, `sectionNumber` is too: it is the ordinal divided by 100, and the letter offset is at most 26. |
| LovdataProvisionParser.SectionGroupNormalizes | src/parsers/lovdata-provision-parser.ts:41-46 | Normalising group 1 of a section line gives a section token (digits, then optionally one lower-case letter, directly or after one space) with the same leading digits as the line. |
| LovdataProvisionParser.TokenNormalized | src/parsers/lovdata-provision-parser.ts:44-46 | Normalising a section token changes nothing. |
| LovdataProvisionParser.TokenOrdinal | src/parsers/lovdata-provision-parser.ts:56-68 | `sectionOrdinal` is defined on every section token. |
| LovdataProvisionParser.OrdinalOrder | src/parsers/lovdata-provision-parser.ts:56-68 | Ordinals order tokens lexicographically: by number first, then by letter offset, a bare number having offset 0. |
| LovdataProvisionParser.LetteredSectionBetween | src/parsers/lovdata-provision-parser.ts:56-68 | For every number n and letter a–z, with or without a space: "n" < "n x" < "n+1". |
| LovdataProvisionParser.FlushEmitsOpenSection | src/parsers/lovdata-provision-parser.ts:110-141 | A flush emits a provision exactly when a section is open with a non-empty buffer. It keeps the earlier provisions. The new provision has the reference from chapter and section, the open title, and the buffer joined by spaces, collapsed and trimmed. The section, title and buffer are then cleared. |
| LovdataProvisionParser.BlankInputGivesNothing | src/parsers/lovdata-provision-parser.ts:143-147 | Empty or whitespace-only input gives no provisions and both counters 0. |
| LovdataProvisionParser.PendingChapterRule | src/parsers/lovdata-provision-parser.ts:166-174 | At any section candidate the pending chapter is cleared. `ignored_chapter_markers` grows by one exactly when a chapter was pending, one was active and the candidate's number is not 1. The active chapter changes only to the pending one, and only when no chapter was active or the number is 1. |
| LovdataProvisionParser.SuppressionRule | src/parsers/lovdata-provision-parser.ts:186-225 | A candidate hit by one of the five checks changes only the counters, the pending chapter and the content. The suppressed counter grows by one, the pending chapter is cleared, and the line is appended to the open section's content (dropped when none is open). |
| LovdataProvisionParser.AcceptanceRule | src/parsers/lovdata-provision-parser.ts:227-238 | An accepted candidate becomes the open section, normalised. The pending title becomes its title and is cleared. The remainder of its line, when non-empty, is its first content. The provisions are those of the flush. |
| LovdataProvisionParser.TitleRules | src/parsers/lovdata-provision-parser.ts:241-249 | A title-like line with no section open becomes the pending title. One that comes while the open section's content is empty becomes that section's title. Nothing else changes. |
| LovdataProvisionParser.FlatPendingAccepted | src/parsers/lovdata-provision-parser.ts:166-169 | In a text with no active chapter, a pending chapter is activated by the next well-formed candidate, and that candidate is not suppressed. |
| LovdataProvisionParser.SegmentFollowsChapter | src/parsers/lovdata-provision-parser.ts:163-169 | The proof's segment counter advances exactly when a line changes the active chapter, so segments are the runs between chapter activations. |
| LovdataProvisionParser.ParseWellFormed | src/parsers/lovdata-provision-parser.ts:92-259 | Every emitted provision has a normalised section token, the reference `chapter:section` (or the bare section) and non-empty normalised content. No two share a reference. Consecutive provisions emitted between the same two chapter activations have the same chapter and strictly increasing ordinals. |
| LovdataProvisionParser.LovdataParser.constructor | src/parsers/lovdata-provision-parser.ts:93-108 | The parser starts with no provisions, empty sets and maps, zero counters and nothing open or pending. |
| LovdataProvisionParser.LovdataParser.FlushCurrentSection | src/parsers/lovdata-provision-parser.ts:110-141 | The fields after `flushCurrentSection` are the flush function of the fields before. |
| LovdataProvisionParser.LovdataParser.ProcessLine | src/parsers/lovdata-provision-parser.ts:143-254 | Processing one raw line moves the fields to the loop's step function on that line. |
| LovdataProvisionParser.LovdataParser.AssessCandidate | src/parsers/lovdata-provision-parser.ts:159-211 | It computes the chapter for the candidate, its reference and the five checks from the current fields, and changes nothing. |
| LovdataProvisionParser.LovdataParser.ProcessSectionLine | src/parsers/lovdata-provision-parser.ts:157-239 | A section line moves the fields to the section step: the pending-chapter rule, then suppression or acceptance. |
| LovdataProvisionParser.LovdataParser.OpenCandidate | src/parsers/lovdata-provision-parser.ts:227-238 | The fields become those of the accepted candidate's section, opened after clearing the pending title and flushing, with the old pending title as its title. |
| LovdataProvisionParser.SplitLines | src/parsers/lovdata-provision-parser.ts:93-93 | Splitting at `\r?\n` always gives at least one line. |
| LovdataProvisionParser.RunLines | src/parsers/lovdata-provision-parser.ts:143-254 | The loop over the lines leaves a fresh parser whose fields are the step function folded over the lines. |
| LovdataProvisionParser.ParseLovdataProvisions | src/parsers/lovdata-provision-parser.ts:92-259 | The result is the specification's. Every provision is well formed, and the references are pairwise distinct. |
| LovdataProvisionParser.ParseRiksdagenProvisions | src/parsers/lovdata-provision-parser.ts:88-90 | The deprecated alias returns what `parseLovdataProvisions` returns. |
| CitationParser.LovRule | src/citation/parser.ts:66-77 | Rule 1 applies exactly when the LOV pattern matches. Its result is a valid statute with the untrimmed input as `raw` and no error. |
| CitationParser.HrRule | src/citation/parser.ts:80-88 | Rule 2 applies exactly when the docket pattern matches. It gives a valid case-law result with no pinpoints. |
| CitationParser.RtRule | src/citation/parser.ts:91-100 | Rule 3 applies exactly when the `Rt.` pattern matches. It gives a valid case-law result with no pinpoints. |
| CitationParser.PropNoRule | src/citation/parser.ts:103-113 | Rule 4 applies exactly when the Norwegian proposition pattern matches. It gives a valid bill with no pinpoints. |
| CitationParser.SeriesRule | src/citation/parser.ts:116-137 | The NOU, SOU and Ds rules apply exactly when their pattern matches. Each gives a valid result of its type with no pinpoints. |
| CitationParser.PropSeRule | src/citation/parser.ts:122-125 | The legacy proposition rule applies exactly when its pattern matches. It gives a valid bill. |
| CitationParser.LegacyCaseRule | src/citation/parser.ts:140-151 | The NJA/HFD/generic loop applies exactly when one of its three patterns matches. It gives valid case law. |
| CitationParser.SfsShortRule | src/citation/parser.ts:154-164 | The legacy short form applies exactly when its pattern matches. It gives a valid statute. |
| CitationParser.SfsRule | src/citation/parser.ts:167-178 | The legacy long form applies exactly when its pattern matches. It gives a valid statute. |
| CitationParser.ParseTrimmedCases | src/citation/parser.ts:65-186 | After the rules, a valid result has no error. An invalid one is the "Unrecognized citation format" result for the trimmed text. |
| CitationParser.EmptyCitation | src/citation/parser.ts:59-63 | Blank input is invalid with "Empty citation", and that error occurs exactly for blank input. |
| CitationParser.ResultShape | src/citation/parser.ts:58-186 | `raw` is always the untrimmed input, and a result is valid exactly when it has no error. An invalid result has an empty `document_id` and an error that contains the trimmed input. |
| CitationParser.PinpointsNormalized | src/citation/parser.ts:74-176 | Every section pinpoint is whitespace-collapsed and trimmed: digits and at most one letter. Every chapter is a digit run. |
| CitationParser.LovPrefixedNotReclassified | src/citation/parser.ts:65-77 | An accepted input that begins with `lov` is read by the LOV rule, never by a later legacy rule. The one exception is a bill, matched through the unanchored `Ot.prp.` alternative. |
| CitationParser.LovShortFormParses | src/citation/parser.ts:20-77 | `id § S`, for any LOV id and section, parses to a statute with the upper-cased id, that section and no chapter. |
| CitationParser.LovSectionExample | src/citation/parser.ts:66-77 | The LOV id of 15 June 2018 no. 38 followed by the section sign and section five is a statute with id "LOV-2018-06-15-38", section "5" and no chapter. |
| CitationParser.LovResultShape | src/citation/parser.ts:71-75 | A valid statute with a LOV id has that id upper-cased, and its section, when present, is a section text (digits, then at most one letter). |
| CitationParser.HrDocketParses | src/citation/parser.ts:80-88 | Every HR/LA/LB/LE/TING docket parses to `COURT-YYYY-N[-L]` with court and letter upper-cased and no page. |
| CitationParser.PropFormParses | src/citation/parser.ts:104-113 | `Prop.N L\|LS\|S (YYYY-YYYY)` parses to the bill `Prop.N (session)`. |
| CitationParser.OtPrpFormParses | src/citation/parser.ts:104-113 | `Ot.prp. [nr.] N (YYYY-YYYY)` parses to the same bill id `Prop.N (session)`. |
| CitationParser.DetectAgrees | src/citation/parser.ts:192-209 | For every accepted input not read through the unanchored `Ot.prp.` alternative, `detectDocumentType` gives the parsed type. |
| CitationParser.UnanchoredOtPrpDisagrees | src/citation/parser.ts:29-29 | "x Ot.prp. 4 (2001-2002)" parses as the bill `Prop.4 (2001-2002)`, yet is detected as null. |
| CitationFormatter.InvalidFormatsRaw | src/citation/formatter.ts:23-25 | An invalid citation formats to its raw input in every style. |
| CitationFormatter.ShortStyle | src/citation/formatter.ts:58-62 | Short style: `id C:S` with chapter and section in both eras. With a section only, `id § S` for a LOV id and `id S §` for a legacy id. The id alone without a section. |
| CitationFormatter.FullStyle | src/citation/formatter.ts:64-68 | Full style: `LOV id[ kapittel C][ S §]` for a LOV id, `SFS id[ C kap.][ S §]` otherwise. |
| CitationFormatter.FullStyleExample | src/citation/formatter.ts:12-13 | The doc comment's example prints as "LOV LOV-2018-06-15-38 kapittel 3 5 §", with the section sign after the section, not between chapter and section. |
| CitationFormatter.PinpointStyle | src/citation/formatter.ts:52-56 | Pinpoint style: `kapittel C § S` (LOV) or `C kap. S §` (legacy) with both pinpoints. `S §` with a section only. The id otherwise. |
| CitationFormatter.OtherStyles | src/citation/formatter.ts:30-35 | In every style, a bill id with `(` stays as it is and any other gets `Prop. ` in front. A NOU is `NOU id` and a Ds is `Ds id`. |
| CitationFormatter.PropIdFormatsAsItself | src/citation/formatter.ts:71-78 | Every Norwegian proposition id the parser builds prints as itself. |
| CitationFormatter.CaseLawStyle | src/citation/formatter.ts:80-98 | Case law is the id, then the connector and the page when there is a page. The connector depends on the id prefix alone: `s.` for NJA and Rt., `ref.` for HFD, `avsnitt` for anything else. |
| CitationFormatter.ShortStyleReparses | src/citation/formatter.ts:58-62 | A LOV statute with a section and no chapter, printed in the short style and parsed again, has the same id and section and no chapter. |
| CitationFormatter.ProvisionRefSplits | src/citation/formatter.ts:104-108 | `C:S`, for a colon-free chapter, splits at its first colon back into the chapter and the section. |
| CitationFormatter.ProvisionRefBare | src/citation/formatter.ts:104-108 | Without a chapter the reference is the bare section. |
| AmendmentParser.ValidLovIdShape | src/parsers/amendment-parser.ts:308-310 | `isValidLovId` accepts exactly `LOV-YYYY-MM-DD-N` with a non-empty digit number. |
| AmendmentParser.LovIdSlice | src/parsers/amendment-parser.ts:38-38 | The text a match of the LOV pattern covers is itself a valid LOV id. |
| AmendmentParser.NormalizeLovId | src/parsers/amendment-parser.ts:315-318 | Every non-null `normalizeLovId` result satisfies `isValidLovId`. |
| AmendmentParser.NormalizeValidId | src/parsers/amendment-parser.ts:315-318 | A valid id normalises to itself. |
| AmendmentParser.NormalizeIdempotent | src/parsers/amendment-parser.ts:315-318 | Normalising twice is normalising once. |
| AmendmentParser.MonthNumber | src/parsers/amendment-parser.ts:53-61 | The table's months are two-digit numbers. |
| AmendmentParser.MonthLookupAsWritten | src/parsers/amendment-parser.ts:80-80 | On the table's own keys the plain-object lookup agrees with the table. |
| AmendmentParser.LovReferenceValid | src/parsers/amendment-parser.ts:68-87 | A LOV id is returned unchanged, and every non-null result is a valid LOV id. |
| AmendmentParser.DateRefTextParses | src/parsers/amendment-parser.ts:75-86 | `D month YYYY nr. N` gives `LOV-YYYY-MM-DD-N`, with the day zero-padded to two digits, when the lookup knows the month, and null otherwise. This holds for any month lookup. |
| AmendmentParser.ParseDateRefText | src/parsers/amendment-parser.ts:75-86 | With the month table, a known month maps through the table and an unknown month gives null. |
| AmendmentParser.ParseLovReferenceExample | src/parsers/amendment-parser.ts:63-66 | "20 juni 2014 nr. 49" gives "LOV-2014-06-20-49". |
| AmendmentParser.ConstructorIdMalformed | src/parsers/amendment-parser.ts:86-86 | The id built around the `Object` function's text is not a valid LOV id. |
| AmendmentParser.ConstructorMonthAsWritten | src/parsers/amendment-parser.ts:79-86 | As written, "1 constructor 2014 nr. 5" gives a malformed id; the corrected lookup gives null. |
| AmendmentParser.ScanVerb | src/parsers/amendment-parser.ts:102-113 | One explicit scan loop pushes, under the shared seen-set, each hit's parsed record whose id is new. |
| AmendmentParser.ScanBareIds | src/parsers/amendment-parser.ts:145-157 | The fallback loop pushes each new bare id, typed by whether the force pattern occurs in the content. |
| AmendmentParser.ExtractAmendmentReferences | src/parsers/amendment-parser.ts:97-161 | The method returns what the specification function gives for the content. |
| AmendmentParser.OutcomeCases | src/parsers/amendment-parser.ts:143-158 | When the explicit scans found candidates, the result is their first-seen de-duplication by LOV id. When they found none, it is that of the fallback candidates. |
| AmendmentParser.AmendmentIdsDistinct | src/parsers/amendment-parser.ts:99-141 | The `amended_by_lov` values of the result are pairwise distinct. |
| AmendmentParser.AmendmentIdsValid | src/parsers/amendment-parser.ts:97-161 | Every result carries a valid LOV id. |
| AmendmentParser.ExplicitShape | src/parsers/amendment-parser.ts:102-141 | With explicit hits, every result is `inline` and typed `endret`, `tilføyd` or `opphevet`. |
| AmendmentParser.ExplicitComplete | src/parsers/amendment-parser.ts:102-141 | With explicit hits, the result's ids are exactly the ids the explicit scans found. |
| AmendmentParser.FirstScanWins | src/parsers/amendment-parser.ts:98-141 | An id has the type of the first scan that found it, in the order endret, tilføyd, opphevet. |
| AmendmentParser.FallbackShape | src/parsers/amendment-parser.ts:143-158 | A fallback result's raw text is the bare id. It is `ikrafttredelse`/`transition` when the force pattern occurs anywhere in the content, else `endret`/`suffix`. |
| AmendmentParser.ParseStatuteAmendments | src/parsers/amendment-parser.ts:166-183 | The method returns the specification's entries. |
| AmendmentParser.StatuteAmendmentsConcat | src/parsers/amendment-parser.ts:171-180 | The entries keep input order: the result for `xs + ys` is the result for `xs` followed by the result for `ys`. |
| AmendmentParser.StatuteAmendmentsSound | src/parsers/amendment-parser.ts:171-180 | Every entry is an input provision's reference with that provision's own non-empty references. |
| AmendmentParser.StatuteAmendmentsComplete | src/parsers/amendment-parser.ts:174-179 | Every provision with at least one reference has its entry. |
| AmendmentParser.AddNewFacts | src/parsers/amendment-parser.ts:234-240 | The `includes`-guarded push extends the list and keeps it free of repeats. It adds exactly the new elements. |
| AmendmentParser.AddValueIds | src/parsers/amendment-parser.ts:235-239 | The loop over one metadata value adds that value's LOV ids that are new. |
| AmendmentParser.AddAllValueIds | src/parsers/amendment-parser.ts:234-240 | The loop over all values adds every value's new ids, in order. |
| AmendmentParser.FindRepealedDate | src/parsers/amendment-parser.ts:214-220 | It computes the repeal date of the specification. |
| AmendmentParser.FindRepealingLov | src/parsers/amendment-parser.ts:223-231 | It computes the repealing id, and the description when the source value is set. |
| AmendmentParser.ExtractMetadataAmendments | src/parsers/amendment-parser.ts:206-243 | The method returns the specification's record. |
| AmendmentParser.RepealedDateFirst | src/parsers/amendment-parser.ts:214-220 | `repealed_date` is the leftmost ISO date of a non-empty `Opphevet` entry. There is one whenever that entry holds an ISO date. |
| AmendmentParser.RepealPrecedence | src/parsers/amendment-parser.ts:223-231 | `Opphevet ved lov` takes precedence over `Opphevet ved` as the description, and with neither there is no description and no repealing id. The repealing id is `normalizeLovId` of the description, and there is none without a description. |
| AmendmentParser.RepealingLovListed | src/parsers/amendment-parser.ts:225-238 | The repealing id is among the ids found in the metadata values. |
| AmendmentParser.ReferencedLovsDistinct | src/parsers/amendment-parser.ts:234-240 | `referenced_lovs` has no duplicates. |
| AmendmentParser.RepealingLovFirst | src/parsers/amendment-parser.ts:226-228 | When there is a repealing id, `referenced_lovs` lists it first. |
| AmendmentParser.ReferencedLovsMembers | src/parsers/amendment-parser.ts:234-240 | `referenced_lovs` holds exactly the LOV ids of the metadata values, each a valid id. |
| AmendmentParser.EffectiveDateIso | src/parsers/amendment-parser.ts:326-344 | Every effective date found is an ISO date `YYYY-MM-DD`. |
| AmendmentParser.EffectiveDateFallback | src/parsers/amendment-parser.ts:341-343 | The result is the first ISO date of the text, or null when there is none, in two cases: the phrase occurs nowhere, or the first phrase names an unknown month. |
| AmendmentParser.EffectivePhraseParses | src/parsers/amendment-parser.ts:328-338 | `trer i kraft D. month YYYY`, after text with no `t`, gives `YYYY-MM-DD` with the day padded when the lookup knows the month. Otherwise it gives the ISO fallback. This holds for any lookup. |
| AmendmentParser.EffectiveDateExample | src/parsers/amendment-parser.ts:323-324 | "Denne loven trer i kraft 1. juli 2021" gives "2021-07-01". |
| AmendmentParser.ConstructorDateMalformed | src/parsers/amendment-parser.ts:337-337 | The date built around the `Object` function's text is not an ISO date. |
| AmendmentParser.ConstructorEffectiveAsWritten | src/parsers/amendment-parser.ts:333-337 | As written, "trer i kraft 1. constructor 2014" gives a non-ISO string; the corrected lookup gives null. |
| EuReferenceParser.ScanMatches | src/parsers/eu-reference-parser.ts:94-100 | The inner loop pushes each match's parsed reference whose `id:community` key is new. |
| EuReferenceParser.ScanPatterns | src/parsers/eu-reference-parser.ts:92-101 | The outer loop pushes the candidates of the patterns in pattern order. |
| EuReferenceParser.ExtractEUReferences | src/parsers/eu-reference-parser.ts:87-117 | The method returns what the specification function gives for the text. |
| EuReferenceParser.EnhanceReference | src/parsers/eu-reference-parser.ts:246-273 | The method's keyword loop gives the specification's enhanced reference. |
| EuReferenceParser.EnhanceReferences | src/parsers/eu-reference-parser.ts:116-116 | The final `map` enhances every kept reference, in order. |
| EuReferenceParser.ParseIntDigits | src/parsers/eu-reference-parser.ts:135-136 | `parseInt` of a digit group is its decimal value. |
| EuReferenceParser.PivotTwoDigits | src/parsers/eu-reference-parser.ts:151-154 | A year below 50 becomes 2000+y and a year of 50–99 becomes 1900+y. The result keeps y's digits and lies in 1950..2049. |
| EuReferenceParser.PivotLarge | src/parsers/eu-reference-parser.ts:152-154 | A year of 100 or more is left as it is, so no pivoted year is below 100. |
| EuReferenceParser.NaNDiscards | src/parsers/eu-reference-parser.ts:149-168 | A NaN year or number discards the match, and only that does. Otherwise the id is `year/number` with the pivoted year, and the type, community and issuing body are carried over. |
| EuReferenceParser.ParenDirectiveOutcome | src/parsers/eu-reference-parser.ts:131-147 | `direktiv (X) Y/N`: an X naming a body leaves the number NaN. An X not starting with a digit is the community. An X starting with a digit is read as the year. |
| EuReferenceParser.SlashDirectiveOutcome | src/parsers/eu-reference-parser.ts:141-144 | `direktiv Y/N[/C]` gives the year and number as written, and the community from C, or EU without one. |
| EuReferenceParser.BodyOutcome | src/parsers/eu-reference-parser.ts:132-136 | A match led by an issuing body gives that body, the community (EU when none is written), the year and the number, for directives and regulations alike. |
| EuReferenceParser.ParenRegulationOutcome | src/parsers/eu-reference-parser.ts:183-195 | `forordning (X) [nr] Y/N`: an X naming a body leaves the number NaN; any other X is the community. |
| EuReferenceParser.BodyIssuerLike | src/parsers/eu-reference-parser.ts:47-47 | Whatever the issuing-body alternatives match passes the `råd\|kommisjon\|Europa` test. |
| EuReferenceParser.DirectiveHitParts | src/parsers/eu-reference-parser.ts:122-147 | Every directive match yields parts, and its year and number are never negative. |
| EuReferenceParser.RegulationHitParts | src/parsers/eu-reference-parser.ts:174-195 | Every regulation match yields parts, and its year and number are never negative. |
| EuReferenceParser.CommunityOfDigits | src/parsers/eu-reference-parser.ts:223-232 | A string of digits names no community and reads as EU. |
| EuReferenceParser.CommunityNameParses | src/parsers/eu-reference-parser.ts:223-232 | Each community's own name parses back to that community. |
| EuReferenceParser.LegacyCommunities | src/parsers/eu-reference-parser.ts:228-230 | EG reads as EF and EEG as EØF, after upper-casing and trimming. |
| EuReferenceParser.CommunityNameShape | src/parsers/eu-reference-parser.ts:131-137 | No community name looks like an issuing body or begins with a digit. |
| EuReferenceParser.ContextWindow | src/parsers/eu-reference-parser.ts:237-241 | The context is `text[max(0,i-100) .. min(len,i+m+100)]` with its whitespace collapsed and trimmed. It spans at most m+200 characters around the match. |
| EuReferenceParser.ShortTextContext | src/parsers/eu-reference-parser.ts:237-241 | Within 100 characters of both ends, the context is the whole text, normalised. |
| EuReferenceParser.EnhancedKeeps | src/parsers/eu-reference-parser.ts:246-273 | Enhancing changes only the article, the reference type and the keyword, and always sets a type. |
| EuReferenceParser.EnhancedClassification | src/parsers/eu-reference-parser.ts:249-270 | An article phrase gives the article and `cites_article`. Otherwise a type already set stays. Otherwise the first keyword in table order sets the type. Otherwise a directive is `implements` and a regulation `applies`. The first keyword found is recorded in every case. |
| EuReferenceParser.KeywordTableOrder | src/parsers/eu-reference-parser.ts:257-265 | Keywords are tried in table order: when the context holds any keyword, the one chosen comes no later in the table. |
| EuReferenceParser.EUReferencesFacts | src/parsers/eu-reference-parser.ts:87-117 | Every output reference is well formed and has a reference type, and the keys are pairwise distinct. Each output is the first candidate with its key, enhanced. |
| EuReferenceParser.EUReferencesComplete | src/parsers/eu-reference-parser.ts:91-113 | The output keys are exactly the candidates' keys. |
| EuReferenceParser.DirectivesFirst | src/parsers/eu-reference-parser.ts:91-113 | The de-duplicated directives come first. Every later reference is a regulation whose key no directive has, so a regulation that collides with a directive is dropped. |
| EuReferenceParser.FirstPatternLeads | src/parsers/eu-reference-parser.ts:92-100 | The first directive pattern's first candidate heads all candidates. |
| EuReferenceParser.DocumentIdRoundTrip | src/parsers/eu-reference-parser.ts:279-295 | `parseEUDocumentId(generateEUDocumentId(r))` gives r's type, year and number whenever the year has four digits. |
| EuReferenceParser.CelexLayout | src/parsers/eu-reference-parser.ts:330-335 | The CELEX number is `3`, the year's four digits, `L` or `R` by type, then a run of at least four digits that reads as the number. |
| EuReferenceParser.FullFormatExtendsShort | src/parsers/eu-reference-parser.ts:300-320 | The full form is the short form, with the issuing body and a space before it and `, artikkel A` after it when those are set. |
| EuReferenceParser.ShortFormatReparses | src/parsers/eu-reference-parser.ts:300-305 | A well-formed directive with a year of at most four digits, printed in the short style and extracted again, heads the result with the same id and community. |
| CrossRefExtractor.Patterns.constructor | src/parsers/cross-ref-extractor.ts:21-27 | The three global patterns start with `lastIndex` 0. |
| CrossRefExtractor.Patterns.Exec | src/parsers/cross-ref-extractor.ts:41-41 | `exec` finds the leftmost match at or after `lastIndex`, moves `lastIndex` to its end (or to 0 when there is none), and leaves the other patterns alone. |
| CrossRefExtractor.Patterns.ScanPattern | src/parsers/cross-ref-extractor.ts:41-50 | One `while (exec)` loop pushes every hit whose key is new and ends with `lastIndex` 0. |
| CrossRefExtractor.Patterns.ExtractCrossReferences | src/parsers/cross-ref-extractor.ts:35-80 | One call returns the references the specification gives from the three `lastIndex` values, and leaves them all 0. |
| CrossRefExtractor.Patterns.ExtractTwice | src/parsers/cross-ref-extractor.ts:35-80 | Two calls on the same text return the same references. |
| CrossRefExtractor.CategoriesIndependent | src/parsers/cross-ref-extractor.ts:39-79 | The output is the LOV references, then the legacy ones, then the provision ones. Each group is exactly what its loop pushes on its own, so the prefixed keys never suppress across kinds. |
| CrossRefExtractor.CrossReferencesDistinct | src/parsers/cross-ref-extractor.ts:42-70 | No two output references name the same target, within a kind or across kinds. |
| CrossRefExtractor.CategoryOfFirstSeen | src/parsers/cross-ref-extractor.ts:43-48 | Each reference is pushed by the first hit that carries its key. |
| CrossRefExtractor.CategoryOfOrdered | src/parsers/cross-ref-extractor.ts:41-50 | Within a kind, references keep the text order of the hits that pushed them. |
| CrossRefExtractor.CrossReferencesComplete | src/parsers/cross-ref-extractor.ts:39-79 | Every hit of the three patterns has its target in the output. |
| CrossRefExtractor.HitRefShape | src/parsers/cross-ref-extractor.ts:45-74 | A hit pushes a reference of its kind's shape. A LOV reference's only target is its matched text, a LOV id. A legacy reference's only target is the `YYYY:N` inside the parentheses of its matched text. A provision reference sets only `target_provision_ref`, a `C:S` whose chapter digits start the matched text. |
| CrossRefExtractor.CategoryShape | src/parsers/cross-ref-extractor.ts:45-74 | Every reference of a kind has that kind's shape. |
| CrossRefExtractor.SectionRefShape | src/parsers/cross-ref-extractor.ts:67-68 | The section, collapsed and trimmed, is digits with at most one lower-case letter, directly or after one space. |
| CrossRefExtractor.ShapesDisjoint | src/parsers/cross-ref-extractor.ts:42-69 | References of different kinds never name the same target. |
| CrossRefExtractor.NoMarkersNoReferences | src/parsers/cross-ref-extractor.ts:21-27 | A text without `L`, `(` and `.` has no cross-references. |
| CrossRefExtractor.LegacyNumberExample | src/parsers/cross-ref-extractor.ts:53-62 | "(2018:218)" gives the one reference with target "2018:218" and raw text "(2018:218)". |
| CrossRefExtractor.KapittelFormNotRecognised | src/parsers/cross-ref-extractor.ts:5-5 | `kapittel 3`, the section sign and `5`, the form named in the doc comment, gives no reference. |
| ExtractDefinitions.CleanText | scripts/extract-definitions.ts:106-111 | `cleanText` is whitespace normalisation: the result is normalised (single spaces, no spaces at the ends). |
| ExtractDefinitions.NewlinesToSpaces | scripts/extract-definitions.ts:109-109 | Each newline becomes a space and every other character stays. |
| ExtractDefinitions.NoNewlinesLeft | scripts/extract-definitions.ts:108-109 | A text whose only whitespace is the plain space, as after the first replacement, is unchanged by the newline replacement. |
| ExtractDefinitions.ExtractTerm | scripts/extract-definitions.ts:116-132 | The term is no longer than the cleaned text, and a non-empty term does not start with a lower-case letter. |
| ExtractDefinitions.StripsTermLead | scripts/extract-definitions.ts:120-121 | The two leading replacements remove exactly `i denne lov\|forskrift ` and/or `med ` in front of a term. |
| ExtractDefinitions.StripsTrailingVerb | scripts/extract-definitions.ts:124-124 | The last replacement removes exactly a trailing ` menes`, ` forstås` or ` forstaas`. |
| ExtractDefinitions.ExtractTermStrips | scripts/extract-definitions.ts:116-132 | A plain term written with a leading `med`/`i denne lov\|forskrift` and a trailing `menes`/`forstås` comes out as the term with its first character upper-cased. |
| ExtractDefinitions.ExtractDefinition | scripts/extract-definitions.ts:137-152 | The definition always ends in `.`, `!` or `?`, adding at most one character to the cleaned text. |
| ExtractDefinitions.StripsDefinitionLead | scripts/extract-definitions.ts:141-141 | The leading replacement removes exactly `i denne lov\|forskrift\|kapittel `. |
| ExtractDefinitions.NoteAfterDefinition | scripts/extract-definitions.ts:144-144 | The trailing replacement removes exactly a ` Lov (<id>)[.]` note. |
| ExtractDefinitions.ExtractDefinitionKeeps | scripts/extract-definitions.ts:137-152 | A plain definition with the lead and note around it comes out as itself, with a period added when it does not end a sentence. |
| ExtractDefinitions.SplitSpacesJoin | scripts/extract-definitions.ts:174-174 | The pieces of `split(/\s+/)` joined with single spaces are the text with its whitespace collapsed. |
| ExtractDefinitions.EnumerationFewWords | scripts/extract-definitions.ts:168-175 | A bare number or list marker has at most one word longer than two characters, so the word-count rule rejects it anyway. |
| ExtractDefinitions.LikelyIgnoresCase | scripts/extract-definitions.ts:183-198 | The provision filter lower-cases first, so its verdict does not depend on letter case. |
| ExtractDefinitions.PlainSentenceCaptured | scripts/extract-definitions.ts:73-73 | On `Med <term> menes <definition>.` with a one-word term, the second pattern matches the whole sentence. It captures the term as group 1 and the definition as group 2. |
| ExtractDefinitions.PatternGroups | scripts/extract-definitions.ts:64-101 | Every pattern takes the term from group 1 and the definition from group 2. |
| ExtractDefinitions.MatchesDefinitions | scripts/extract-definitions.ts:214-232 | The inner loop yields, in match order, the definitions of the matches that have both groups and pass the filter. |
| ExtractDefinitions.ExtractDefinitionsFromProvision | scripts/extract-definitions.ts:203-236 | The method returns the specification's definitions: pattern order, then match order. |
| ExtractDefinitions.ProvisionDefinitionsFacts | scripts/extract-definitions.ts:220-231 | Every definition names the document and the provision's reference. It passed `isValidDefinition` (term length 3..150, definition length 10..5000, at least three long words, no bare reference, enumeration or chapter stub). It ends a sentence and its term does not start lower-case. |
| ExtractDefinitions.ProvisionDefinitionSource | scripts/extract-definitions.ts:211-221 | Every definition comes from a match of one of the patterns in the content. Its term is that match's cleaned group 1 and its definition the cleaned group 2. |
| ExtractDefinitions.ExtractDefinitionsFromDocument | scripts/extract-definitions.ts:241-255 | The method returns the specification's definitions, provision by provision. |
| ExtractDefinitions.DocumentDefinitionSource | scripts/extract-definitions.ts:247-252 | Every definition of a document comes from one of its provisions that passes the filter. |
| ExtractDefinitions.DeduplicateDefinitions | scripts/extract-definitions.ts:260-278 | The method returns the specification's entries. |
| ExtractDefinitions.DeduplicatedKeys | scripts/extract-definitions.ts:263-277 | There is at most one entry per `document_id\|term` key: the first-seen keys. |
| ExtractDefinitions.DeduplicatedComplete | scripts/extract-definitions.ts:263-277 | No key of the input is lost. |
| ExtractDefinitions.DeduplicatedLongest | scripts/extract-definitions.ts:266-274 | Each entry is an input definition that is the longest for its key. No earlier one with its key is as long, so on ties the first wins. |
| ExtractDefinitions.DeduplicatedOrder | scripts/extract-definitions.ts:277-277 | The output follows the order in which keys first occur. |
| ExtractDefinitions.DedupKeyInjective | scripts/extract-definitions.ts:264-264 | For document ids without `\|`, two keys are equal exactly when document and term are. |
| IngestLovdata.NormalizeSectionRef | scripts/ingest-lovdata.ts:108-115 | The result has no `.` or `§` and no whitespace at either end. |
| IngestLovdata.SectionRefOfLetter | scripts/ingest-lovdata.ts:110-113 | A number, whitespace and a letter (`5A`, `5 a`) become the number, one space and the lower-case letter. |
| IngestLovdata.SectionRefOfNumber | scripts/ingest-lovdata.ts:108-115 | A plain number stays as it is. |
| IngestLovdata.SectionRefIdempotent | scripts/ingest-lovdata.ts:108-115 | Normalising twice is normalising once. |
| IngestLovdata.ParseNorwegianDate | scripts/ingest-lovdata.ts:117-126 | Empty input gives undefined. Every result is an ISO date. A non-empty input gives undefined exactly when no `DD.MM.YYYY` occurs at a word boundary. |
| IngestLovdata.NorwegianDateRoundTrip | scripts/ingest-lovdata.ts:117-126 | An ISO date written `DD.MM.YYYY` reads back as itself. |
| IngestLovdata.NorwegianDateFirst | scripts/ingest-lovdata.ts:117-126 | In any text, the result is the first `DD.MM.YYYY` match, written `YYYY-MM-DD` from its own digits. |
| IngestLovdata.ParseLovIdentifier | scripts/ingest-lovdata.ts:132-150 | It fails exactly when the identifier does not match. On success the issue date is an ISO date that starts the slug, and `canonicalId` is `LOV-` followed by the slug, upper-cased. |
| IngestLovdata.LovIdentifierOfParts | scripts/ingest-lovdata.ts:142-149 | `LOV-YYYY-MM-DD-suffix` gives the slug `YYYY-MM-DD-suffix` with the suffix lower-cased, and the canonical id that slug upper-cased after `LOV-`. |
| IngestLovdata.LovIdentifierFields | scripts/ingest-lovdata.ts:132-150 | For every accepted identifier, including the suffix-less and the lower-case `lov-` forms, `issuedDate` is the identifier's own `YYYY-MM-DD` and the slug is that date followed by the rest of the identifier, lower-cased. |
| IngestLovdata.LovIdentifierOfDate | scripts/ingest-lovdata.ts:132-150 | `LOV-YYYY-MM-DD` without a suffix reads as canonical id `LOV-YYYY-MM-DD`, with slug and issue date both `YYYY-MM-DD`. |
| IngestLovdata.LovIdentifierCanonical | scripts/ingest-lovdata.ts:132-150 | The canonical id parses to the same result as the identifier it came from. |
| IngestLovdata.InferStatus | scripts/ingest-lovdata.ts:261-267 | The status is repealed or in force. |
| IngestLovdata.InferStatusRepealed | scripts/ingest-lovdata.ts:261-267 | A statute is repealed exactly when the title, `Opphevet` or `Status` itself mentions "opphevet" in any case. Joining the texts creates no new mention. |
| IngestLovdata.RowPartMarker | scripts/ingest-lovdata.ts:295-313 | A row of two or more cells always yields a part. An empty body gives the marker. A missing marker, or a marker equal to the body, gives the body. Otherwise the part is `marker body` when the marker has at most 16 UTF-16 units, and the body alone when it is longer. |
| IngestLovdata.TableParts | scripts/ingest-lovdata.ts:269-317 | Every table part is normalised text. |
| IngestLovdata.ExtractTableText | scripts/ingest-lovdata.ts:269-317 | The row loop returns the specification's parts. |
| IngestLovdata.ProvisionContent | scripts/ingest-lovdata.ts:340-345 | When no block gives a part, the content is the normalised text of the whole paragraph. |
| IngestLovdata.BlockTexts | scripts/ingest-lovdata.ts:328-338 | The block loop collects every block's parts in block order. |
| IngestLovdata.JoinUnique | scripts/ingest-lovdata.ts:347-357 | The de-duplication loop and the join give the unique parts, one per line, trimmed. |
| IngestLovdata.ExtractProvisionContent | scripts/ingest-lovdata.ts:319-358 | The method returns the specification's content. |
| IngestLovdata.UniquePartsFacts | scripts/ingest-lovdata.ts:347-355 | The unique parts are non-empty and pairwise distinct. They are exactly the non-empty parts. |
| IngestLovdata.UniquePartsOrder | scripts/ingest-lovdata.ts:349-355 | The unique parts keep the order of their first occurrences. |
| IngestLovdata.ContentLines | scripts/ingest-lovdata.ts:357-357 | Splitting the content at line breaks gives back the unique parts. |
| IngestLovdata.NodeProvision | scripts/ingest-lovdata.ts:375-407 | A node with no `PARAGRAF_` id match, or with empty content, gives nothing. Otherwise it gives a provision with the normalised section and the chapter, with reference `chapter:section` or the bare section. Its content is non-empty, and its metadata and title come from the node. |
| IngestLovdata.ReadProvision | scripts/ingest-lovdata.ts:375-407 | The loop body computes what the node gives. |
| IngestLovdata.ChoosePreferredProvision | scripts/ingest-lovdata.ts:360-364 | The result is one of the two and scores no lower than either. On a tie or a shorter candidate it is the current one. |
| IngestLovdata.ExtractProvisions | scripts/ingest-lovdata.ts:366-419 | The merge loop over the map and the order array returns the specification's provisions. |
| IngestLovdata.ProvisionsStep | scripts/ingest-lovdata.ts:409-415 | One node either sets a new reference, appending it to the order, or keeps the preferred of the existing entry and the new one. |
| IngestLovdata.ProvisionsUniqueRefs | scripts/ingest-lovdata.ts:409-418 | There is at most one provision per reference, in first-seen reference order. |
| IngestLovdata.ProvisionsComplete | scripts/ingest-lovdata.ts:409-418 | Every node that gives a provision has its reference in the result. |
| IngestLovdata.ProvisionsLongest | scripts/ingest-lovdata.ts:409-415 | Each kept provision is one a node gave, with the longest normalised content among its reference's nodes. |
| IngestLovdata.ProvisionsFirstOfLongest | scripts/ingest-lovdata.ts:409-415 | Among equally long candidates of one reference the first is kept: a later one replaces it only when strictly longer. |
| IngestLovdata.ProvisionsOrder | scripts/ingest-lovdata.ts:412-418 | References appear in the order of their first candidate. |
| IngestLovdata.RefIdentifiesSection | scripts/ingest-lovdata.ts:395-395 | Two nodes share a reference exactly when they share chapter and section. |
| Scan.DedupMatchesRef | src/parsers/eu-reference-parser.ts:94-100 | The back-to-front first-seen de-duplication that the loops' proofs use agrees with its front-to-back reference definition. |
| Scan.DedupKeys | src/parsers/eu-reference-parser.ts:94-100 | De-duplication keeps distinct keys, none already seen, taken from the input: exactly its new keys. |
| Scan.DedupKeepsFirst | src/parsers/eu-reference-parser.ts:96-99 | Each kept element is the first element of the input with its key. |
| Scan.MergedKeys | scripts/ingest-lovdata.ts:409-418 | The `Map` merge keeps one entry per key, in first-insertion order. |
| Scan.MergedBest | scripts/ingest-lovdata.ts:409-415 | A merged entry is the first of the highest-scoring entries with its key. |

## Left out

- I/O and the runtime. The network, retries, `curl`, file reads and writes,
  the JSDOM traversal and the server's tool dispatch are not modelled. For
  the DOM, a provision node is given as its `data-id`, its chapter's
  `data-id`, the heading, title and paragraph texts, and its blocks. A block
  is a paragraph text or a table of rows of cell texts. Which children match
  the CSS selectors is part of that input.
- `parseAmendingStatute`: not modelled. Its lazy `(.+?)` followed by an
  optional group and `gjøres følgende endring` needs a general backtracking
  matcher, which this model does not have.
- The two article patterns of the pattern table (`artikkel …`, `artiklene …`)
  are never used, so they are not modelled. `enhanceReference` has its own
  inline `artikkel` pattern, and that one is modelled.
- `enhanceReference`: modelled on a value that the method returns. Changing
  the shared object in place, and aliasing between `references` and the
  mapped result, are not modelled.
- Case folding under the `u` flag. U+017F (long s) matching `s`, U+212A
  (Kelvin sign) matching `k` and U+212B (Ångström sign) matching `å` under
  `/iu` are not modelled. `toLowerCase`/`toUpperCase` are modelled on ASCII
  and Latin-1 letters only. Three Latin-1 letters stay unchanged under
  `Text.Upper`, but JavaScript's `toUpperCase` changes them: ß (U+00DF)
  becomes the two letters `SS`, ÿ (U+00FF) becomes U+0178, and µ (U+00B5)
  becomes U+039C. So `ExtractDefinitions.CapitalizeFirst` differs from
  `charAt(0).toUpperCase()` on a term that starts with one of them. For ß the
  term's length differs too, and `isValidDefinition` checks that length.
  `ParseCommunity` is not affected, since no community name contains these
  letters.
- JavaScript number precision. Years, numbers and ordinals are unbounded
  integers, and values above 2^53 are not rounded.
- `EUCommunity` in the shared types (EU, EG, EEG, Euratom) differs from the
  parser's own set (EU, EF, EØF, Euratom). The model uses the parser's set.
- The `extractDefinitions` driver, the database insert and the seed-file
  walk are not modelled. Nor is the ordering of the priority statutes.
- The older EU extractor in `scripts/analyze-eu-references.ts` is not part
  of this model.
- LovdataProvisionParser.SplitLines: its contract states only that there is
  at least one line. The pieces themselves are given by its definition.
- IngestLovdata.InferStatus: its own contract states only the two possible
  values. `InferStatusRepealed` states when each is returned.
- IngestLovdata.TableParts: its own contract states only that parts are
  normalised. `RowPartMarker` states the row rules.
- ExtractDefinitions.ExtractTerm: its own contract states a length bound and
  the capital first letter. `ExtractTermStrips` states what is removed, for
  terms that do not themselves begin with `med`/`i` or end in a verb.
- ExtractDefinitions.ExtractDefinitionKeeps: stated for definitions without
  a `(` of their own and not beginning with the word `i`. For other inputs
  the leftmost-match rule of the replacements is modelled but no lemma
  describes it.
- CitationParser.DetectAgrees: excludes inputs read through the unanchored
  `Ot.prp.` alternative, where the two functions really disagree
  (`UnanchoredOtPrpDisagrees`).
- CitationFormatter.ShortStyleReparses: covers a section without a chapter
  only. The short form `id C:S` is not accepted by the LOV rule, so there
  is no general round trip.
- EuReferenceParser.ContextWindow: the window is cut in characters (code
  points) of `text`, from a match position counted the same way. The code
  counts `match.index`, `text.length` and `substring` in UTF-16 units. Text
  with characters above U+FFFF within 100 units of a match gives a different
  window, and JavaScript's window can split a surrogate pair.
- EuReferenceParser.ShortTextContext: "within 100 characters of both ends"
  counts code points, not UTF-16 units, for the same reason.
- EuReferenceParser.DocumentIdRoundTrip and EuReferenceParser.CelexLayout:
  stated for four-digit years, the only ones `parseEUDocumentId` accepts.

## Findings

| source | as written | input that shows it | evidently intended | confidence | as-written member | corrected member |
|---|---|---|---|---|---|---|
| src/parsers/amendment-parser.ts:80 | `MONTH_NAMES[monthName]` on a plain object also finds `Object.prototype.constructor`, a truthy function. Its source text becomes the month of the id. | `parseLovReference("1 constructor 2014 nr. 5")` gives `LOV-2014-function Object() { [native code] }-01-5`, which is not a LOV id. | An unknown month gives null, and the match adds no amendment. | not executed | AmendmentParser.ConstructorMonthAsWritten | AmendmentParser.ParseDateRefText |
| src/parsers/amendment-parser.ts:333 | The same lookup in `extractEffectiveDate` accepts `constructor` as a month. | `extractEffectiveDate("trer i kraft 1. constructor 2014")` gives `2014-function Object() { [native code] }-01`, which is not an ISO date. | An unknown month falls back to the first ISO date, or null. | not executed | AmendmentParser.ConstructorEffectiveAsWritten | AmendmentParser.EffectiveDateFallback |

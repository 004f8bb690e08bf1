/**
 * The newer application shell: numbering by document count in one of four schemes, the
 * documents it creates by hand or from a scanned image, and the dashboard's search and
 * newest-first ordering.  The clock is read as parameters: the month (1..12), the
 * four-digit year and the day's ISO date.
 */
module SrcApp {
  import opened Wrappers
  import opened Types
  import opened Decimal
  import Constants
  import DocumentEditor

  // ---------------------------------------------------------------------------
  // Numbering by count
  // ---------------------------------------------------------------------------

  /** The number for sequence `count` in a numbering scheme; an unknown scheme gives the bare sequence. */
  function FormatNumber(count: nat, format: string, month: nat, year: nat): string {
    var seqText := NatToString(count);
    if format == "seq-mmyy" then seqText + "-" + PeriodSuffix(month, year)
    else if format == "seq/yyyy" then seqText + "/" + NatToString(year)
    else if format == "yyyy-seq" then NatToString(year) + "-" + seqText
    else seqText
  }

  /** `getNextDocumentNumber(docs, format = 'seq-mmyy', prefix = '')`: the sequence is the number of documents plus one. */
  function NextNumber(docs: seq<DocumentData>, format: Option<string>, prefix: Option<string>, month: nat, year: nat): string {
    var number := FormatNumber(|docs| + 1, format.GetOr("seq-mmyy"), month, year);
    var p := prefix.GetOr("");
    if p != "" then p + number else number
  }

  /** Only the number of documents matters, never what their numbers say. */
  lemma NextNumberCountsOnly(docs: seq<DocumentData>, others: seq<DocumentData>, format: Option<string>, prefix: Option<string>, month: nat, year: nat)
    requires |docs| == |others|
    ensures NextNumber(docs, format, prefix, month, year) == NextNumber(others, format, prefix, month, year)
  {
  }

  /** A non-empty prefix goes in front verbatim; an empty or missing one adds nothing; a missing scheme is `seq-mmyy`. */
  lemma NextNumberPrefix(docs: seq<DocumentData>, format: Option<string>, prefix: Option<string>, month: nat, year: nat)
    ensures NextNumber(docs, format, prefix, month, year)
            == prefix.GetOr("") + FormatNumber(|docs| + 1, format.GetOr("seq-mmyy"), month, year)
  {
    assert "" + FormatNumber(|docs| + 1, format.GetOr("seq-mmyy"), month, year)
           == FormatNumber(|docs| + 1, format.GetOr("seq-mmyy"), month, year);
  }

  /** The four schemes: `n-MMYY`, `n/YYYY`, `YYYY-n`, and the bare `n` for `seq` and for any scheme it does not know. */
  lemma FormatNumberSchemes(count: nat, format: string, month: nat, year: nat)
    ensures format == "seq-mmyy" ==> FormatNumber(count, format, month, year) == NatToString(count) + "-" + PeriodSuffix(month, year)
    ensures format == "seq/yyyy" ==> FormatNumber(count, format, month, year) == NatToString(count) + "/" + NatToString(year)
    ensures format == "yyyy-seq" ==> FormatNumber(count, format, month, year) == NatToString(year) + "-" + NatToString(count)
    ensures format != "seq-mmyy" && format != "seq/yyyy" && format != "yyyy-seq" ==> FormatNumber(count, format, month, year) == NatToString(count)
  {
  }

  /** With no profile settings the number is the count, a dash and `MMYY`. */
  lemma DefaultNumber(docs: seq<DocumentData>, month: nat, year: nat)
    ensures NextNumber(docs, None, None, month, year) == NatToString(|docs| + 1) + "-" + PeriodSuffix(month, year)
  {
    NextNumberPrefix(docs, None, None, month, year);
  }

  /**
   * In the default scheme the number reads back as count, month and year: the text before the
   * dash is the decimal count, then two digits of month and two of year.
   */
  lemma DefaultSchemeReadsBack(docs: seq<DocumentData>, month: nat, year: nat)
    requires 1 <= month <= 12 && year >= 10
    ensures var r := NextNumber(docs, None, None, month, year);
            var k := |NatToString(|docs| + 1)|;
            && |r| == k + 5 && r[k] == '-'
            && AllDigits(r[..k]) && ParseDecimal(r[..k]) == |docs| + 1
            && AllDigits(r[k + 1..k + 3]) && ParseDecimal(r[k + 1..k + 3]) == month
            && AllDigits(r[k + 3..]) && ParseDecimal(r[k + 3..]) == year % 100
  {
    var n := NatToString(|docs| + 1);
    var r := NextNumber(docs, None, None, month, year);
    var k := |n|;
    MonthTextDigits(month);
    ShortYearTextDigits(year);
    ParseNatToString(|docs| + 1);
    DefaultNumber(docs, month, year);
    assert PeriodSuffix(month, year) == MonthText(month) + ShortYearText(year);
    assert r == n + "-" + MonthText(month) + ShortYearText(year);
    DashedParts(n, MonthText(month), ShortYearText(year));
  }

  /** The pieces of `n-MMYY` sit at fixed offsets after the dash. */
  lemma DashedParts(n: string, mm: string, yy: string)
    requires |mm| == 2 && |yy| == 2
    ensures var r := n + "-" + mm + yy;
            && |r| == |n| + 5 && r[|n|] == '-'
            && r[..|n|] == n && r[|n| + 1..|n| + 3] == mm && r[|n| + 3..] == yy
  {
    var r := n + "-" + mm + yy;
    assert r[..|n|] == n;
    assert r[|n| + 1..|n| + 3] == mm;
    assert r[|n| + 3..] == yy;
  }

  /** Six documents in December 2025: `7-1225`; with prefix `FAC-` and scheme `yyyy-seq`: `FAC-2025-7`. */
  lemma NumberingCases(docs: seq<DocumentData>)
    requires |docs| == 6
    ensures NextNumber(docs, Some("seq-mmyy"), Some(""), 12, 2025) == "7-1225"
    ensures NextNumber(docs, Some("yyyy-seq"), Some("FAC-"), 12, 2025) == "FAC-2025-7"
  {
    assert NatToString(7) == "7";
    assert NatToString(12) == "12";
    assert NatToString(20) == "20";
    assert NatToString(202) == "202";
    assert NatToString(2025) == "2025";
    assert MonthText(12) == "12";
    assert ShortYearText(2025) == "25";
    assert PeriodSuffix(12, 2025) == "1225";
  }

  /** The fixture's number is the default scheme's number for an empty store, and the profile defaults select that scheme. */
  lemma InitialNumberIsFirst(month: nat, year: nat)
    ensures Constants.InitialNumber(month, year)
            == NextNumber([], Constants.InitialProfile.docNumberFormat, Constants.InitialProfile.docNumberPrefix, month, year)
  {
    NextNumberPrefix([], Constants.InitialProfile.docNumberFormat, Constants.InitialProfile.docNumberPrefix, month, year);
    assert NatToString(1) + "-" == "1-";
  }

  // ---------------------------------------------------------------------------
  // Creating documents
  // ---------------------------------------------------------------------------

  /**
   * `handleManualCreate`: the sample document with a fresh id, the next number for the profile's
   * scheme and today's date.  The sample itself was built when the module loaded (`loadMonth`,
   * `loadYear`, `loadDay`).
   */
  function ManualDocument(docs: seq<DocumentData>, profile: CompanyProfile, freshId: string,
                          month: nat, year: nat, today: string,
                          loadMonth: nat, loadYear: nat, loadDay: string): DocumentData {
    Constants.InitialDocument(loadMonth, loadYear, loadDay).(
      id := freshId,
      number := NextNumber(docs, profile.docNumberFormat, profile.docNumberPrefix, month, year),
      date := today)
  }

  /** A manual document is the sample with only id, number and date replaced, and the totals pass leaves it alone. */
  lemma ManualDocumentLaws(docs: seq<DocumentData>, profile: CompanyProfile, freshId: string,
                           month: nat, year: nat, today: string,
                           loadMonth: nat, loadYear: nat, loadDay: string)
    ensures var initial := Constants.InitialDocument(loadMonth, loadYear, loadDay);
            var r := ManualDocument(docs, profile, freshId, month, year, today, loadMonth, loadYear, loadDay);
            && r.(id := initial.id, number := initial.number, date := initial.date) == initial
            && r.id == freshId && r.date == today
            && r.number == NextNumber(docs, profile.docNumberFormat, profile.docNumberPrefix, month, year)
            && DocumentEditor.Consistent(r) && DocumentEditor.Recomputed(r) == r
  {
    var initial := Constants.InitialDocument(loadMonth, loadYear, loadDay);
    var r := ManualDocument(docs, profile, freshId, month, year, today, loadMonth, loadYear, loadDay);
    DocumentEditor.InitialDocumentIsFixedPoint(loadMonth, loadYear, loadDay);
    assert r.items == initial.items && r.hasVat == initial.hasVat && r.vatRate == initial.vatRate;
    assert r.hasDeposit == initial.hasDeposit && r.depositPercentage == initial.depositPercentage;
    assert r.subTotal == initial.subTotal && r.vatAmount == initial.vatAmount;
    assert r.totalTTC == initial.totalTTC && r.depositAmount == initial.depositAmount;
    assert DocumentEditor.Consistent(r);
    DocumentEditor.FixedPointIffConsistent(r);
  }

  /** The scanned-image import keeps a non-empty extracted number and otherwise takes the generated one. */
  function OcrNumber(extracted: Option<string>, generated: string): (r: string)
    ensures extracted.Some? && extracted.value != "" ==> r == extracted.value
    ensures extracted.None? || extracted == Some("") ==> r == generated
  {
    NonEmptyOr(extracted, generated)
  }

  /**
   * The imported document: `merged` is the sample overlaid with what the scan extracted (the
   * overlay itself is not modelled); its number and id are then settled.
   */
  function OcrDocument(merged: DocumentData, extractedNumber: Option<string>, generated: string, freshId: string): (r: DocumentData)
    ensures r.(number := merged.number, id := merged.id) == merged
    ensures r.id == freshId && r.number == OcrNumber(extractedNumber, generated)
  {
    merged.(number := OcrNumber(extractedNumber, generated), id := freshId)
  }

  // ---------------------------------------------------------------------------
  // Dashboard
  // ---------------------------------------------------------------------------

  /** `toLowerCase` restricted to ASCII letters. */
  function LowerChar(c: char): char {
    if 'A' <= c <= 'Z' then (c as int + 32) as char else c
  }

  function Lower(s: string): (r: string)
    ensures |r| == |s|
    ensures forall i :: 0 <= i < |s| ==> r[i] == LowerChar(s[i])
  {
    seq(|s|, i requires 0 <= i < |s| => LowerChar(s[i]))
  }

  /** `s.includes(sub)`, by walking the starting positions. */
  function Includes(s: string, sub: string): bool
    decreases |s|
  {
    if sub <= s then true else if s == [] then false else Includes(s[1..], sub)
  }

  predicate OccursAt(s: string, sub: string, i: int) {
    0 <= i <= |s| - |sub| && s[i..i + |sub|] == sub
  }

  /** `includes` holds exactly when `sub` occurs at some position. */
  lemma {:induction false} IncludesIffOccurs(s: string, sub: string)
    ensures Includes(s, sub) <==> exists i :: OccursAt(s, sub, i)
    decreases |s|
  {
    if sub <= s {
      assert OccursAt(s, sub, 0);
    } else if s != [] {
      IncludesIffOccurs(s[1..], sub);
      if Includes(s[1..], sub) {
        var i :| OccursAt(s[1..], sub, i);
        assert OccursAt(s, sub, i + 1);
      }
      if exists i :: OccursAt(s, sub, i) {
        var i :| OccursAt(s, sub, i);
        assert i != 0;
        assert s[1..][i - 1..i - 1 + |sub|] == s[i..i + |sub|];
        assert OccursAt(s[1..], sub, i - 1);
      }
    } else {
      assert forall i :: !OccursAt(s, sub, i);
    }
  }

  /** The search: the client name or the number contains the term, ignoring case. */
  predicate MatchesSearch(doc: DocumentData, term: string) {
    Includes(Lower(doc.clientName), Lower(term)) || Includes(Lower(doc.number), Lower(term))
  }

  function SearchFilter(docs: seq<DocumentData>, term: string): (r: seq<DocumentData>)
    ensures |r| <= |docs|
  {
    if docs == [] then []
    else (if MatchesSearch(docs[0], term) then [docs[0]] else []) + SearchFilter(docs[1..], term)
  }

  /** Newest first, `timeOf` standing for `new Date(d.date).getTime()`. */
  ghost predicate NewestFirst(docs: seq<DocumentData>, timeOf: DocumentData -> int) {
    forall i, j :: 0 <= i < j < |docs| ==> timeOf(docs[i]) >= timeOf(docs[j])
  }

  lemma PrependNewestFirst(x: DocumentData, rest: seq<DocumentData>, timeOf: DocumentData -> int)
    requires NewestFirst(rest, timeOf)
    requires forall k :: 0 <= k < |rest| ==> timeOf(rest[k]) <= timeOf(x)
    ensures NewestFirst([x] + rest, timeOf)
  {
    var r := [x] + rest;
    forall i, j | 0 <= i < j < |r| ensures timeOf(r[i]) >= timeOf(r[j]) {
      assert r[j] == rest[j - 1];
      if i > 0 {
        assert r[i] == rest[i - 1];
      }
    }
  }

  /** In a list sorted newest first, nothing after the head is newer than it. */
  lemma TailNoNewer(sorted: seq<DocumentData>, timeOf: DocumentData -> int)
    requires sorted != [] && NewestFirst(sorted, timeOf)
    ensures forall x :: x in sorted[1..] ==> timeOf(x) <= timeOf(sorted[0])
  {
    forall x | x in sorted[1..] ensures timeOf(x) <= timeOf(sorted[0]) {
      var j :| 0 <= j < |sorted[1..]| && sorted[1..][j] == x;
      assert sorted[j + 1] == x;
    }
  }

  /** Places `d` before the first entry no newer than it, so an earlier entry stays ahead of equally dated ones. */
  function InsertByTime(d: DocumentData, sorted: seq<DocumentData>, timeOf: DocumentData -> int): (r: seq<DocumentData>)
    requires NewestFirst(sorted, timeOf)
    ensures NewestFirst(r, timeOf)
    ensures multiset(r) == multiset(sorted) + multiset{d}
    ensures forall k :: 0 <= k < |r| ==> r[k] == d || r[k] in sorted
    decreases |sorted|
  {
    if sorted == [] || timeOf(sorted[0]) <= timeOf(d) then
      PrependNewestFirst(d, sorted, timeOf);
      [d] + sorted
    else
      var rest := InsertByTime(d, sorted[1..], timeOf);
      assert sorted == [sorted[0]] + sorted[1..];
      TailNoNewer(sorted, timeOf);
      forall k | 0 <= k < |rest| ensures timeOf(rest[k]) <= timeOf(sorted[0]) {
        if rest[k] != d {
          assert rest[k] in sorted[1..];
        }
      }
      PrependNewestFirst(sorted[0], rest, timeOf);
      [sorted[0]] + rest
  }

  /** `sort((a, b) => time(b) - time(a))`, a stable sort. */
  function SortNewestFirst(docs: seq<DocumentData>, timeOf: DocumentData -> int): (r: seq<DocumentData>)
    ensures NewestFirst(r, timeOf)
    ensures multiset(r) == multiset(docs)
  {
    if docs == [] then []
    else
      assert docs == [docs[0]] + docs[1..];
      InsertByTime(docs[0], SortNewestFirst(docs[1..], timeOf), timeOf)
  }

  /** The dashboard list: the matching documents, newest first. */
  function DashboardList(docs: seq<DocumentData>, term: string, timeOf: DocumentData -> int): seq<DocumentData> {
    SortNewestFirst(SearchFilter(docs, term), timeOf)
  }

  lemma {:induction false} SearchFilterSelects(docs: seq<DocumentData>, term: string, d: DocumentData)
    ensures multiset(SearchFilter(docs, term))[d] == if MatchesSearch(d, term) then multiset(docs)[d] else 0
    decreases |docs|
  {
    if docs != [] {
      assert docs == [docs[0]] + docs[1..];
      SearchFilterSelects(docs[1..], term, d);
    }
  }

  /**
   * The list is ordered newest first and holds each matching document as often as the store does
   * and nothing else: a rearrangement of a subset of the documents.
   */
  lemma DashboardListLaws(docs: seq<DocumentData>, term: string, timeOf: DocumentData -> int)
    ensures var r := DashboardList(docs, term, timeOf);
            && NewestFirst(r, timeOf)
            && |r| <= |docs|
            && (forall d :: multiset(r)[d] == if MatchesSearch(d, term) then multiset(docs)[d] else 0)
            && (forall k :: 0 <= k < |r| ==> r[k] in docs && MatchesSearch(r[k], term))
  {
    var r := DashboardList(docs, term, timeOf);
    forall d ensures multiset(r)[d] == if MatchesSearch(d, term) then multiset(docs)[d] else 0 {
      SearchFilterSelects(docs, term, d);
    }
    assert |r| == |multiset(r)| == |multiset(SearchFilter(docs, term))| == |SearchFilter(docs, term)|;
    forall k | 0 <= k < |r| ensures r[k] in docs && MatchesSearch(r[k], term) {
      assert r[k] in multiset(r);
    }
  }

  /** An empty search keeps every document. */
  lemma {:induction false} EmptySearchKeepsAll(docs: seq<DocumentData>)
    ensures SearchFilter(docs, "") == docs
    decreases |docs|
  {
    if docs != [] {
      assert Lower("") == "";
      assert Includes(Lower(docs[0].clientName), "");
      EmptySearchKeepsAll(docs[1..]);
    }
  }

  /** The search ignores the case of ASCII letters in the term. */
  lemma SearchIgnoresCase(doc: DocumentData, term: string, other: string)
    requires |term| == |other| && forall i :: 0 <= i < |term| ==> LowerChar(term[i]) == LowerChar(other[i])
    ensures MatchesSearch(doc, term) <==> MatchesSearch(doc, other)
  {
    assert Lower(term) == Lower(other);
  }
}

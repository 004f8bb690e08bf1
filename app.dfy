/**
 * The older application shell: numbering by the largest sequence already used this month,
 * the document it creates by hand, and the merge of company details read from a scanned
 * document into the profile.  The month (1..12), the four-digit year and the day's ISO date
 * are parameters.
 */
module App {
  import opened Wrappers
  import opened Types
  import opened Decimal
  import Constants
  import DocumentEditor
  import SrcApp

  // ---------------------------------------------------------------------------
  // Numbering by the largest sequence
  // ---------------------------------------------------------------------------

  /**
   * `number.match(/^(\d+)-SUFFIX$/)` followed by `parseInt(match[1], 10)`: the sequence when the
   * number is one or more digits, a dash and the suffix, nothing otherwise.
   */
  function MatchSequence(number: string, suffix: string): Option<nat> {
    var k := |number| - |suffix| - 1;
    if k >= 1 && number[k] == '-' && number[k + 1..] == suffix && AllDigits(number[..k])
    then Some(ParseDecimal(number[..k]))
    else None
  }

  /** A match is exactly a digit run, a dash and the suffix; the sequence is the run's decimal value. */
  lemma MatchSequenceSound(number: string, suffix: string)
    requires MatchSequence(number, suffix).Some?
    ensures var k := |number| - |suffix| - 1;
            && k >= 1 && AllDigits(number[..k])
            && number == number[..k] + "-" + suffix
            && MatchSequence(number, suffix).value == ParseDecimal(number[..k])
  {
    var k := |number| - |suffix| - 1;
    assert number == number[..k] + [number[k]] + number[k + 1..];
  }

  lemma MatchSequenceComplete(digits: string, suffix: string)
    requires |digits| >= 1 && AllDigits(digits)
    ensures MatchSequence(digits + "-" + suffix, suffix) == Some(ParseDecimal(digits))
  {
    var number := digits + "-" + suffix;
    var k := |digits|;
    assert number[..k] == digits;
    assert number[k + 1..] == suffix;
  }

  /** What one document offers to the maximum: an empty number is skipped, a non-matching one gives nothing. */
  function SequenceOf(doc: DocumentData, suffix: string): Option<nat> {
    if doc.number != "" then MatchSequence(doc.number, suffix) else None
  }

  /** The largest sequence matched among the documents, 0 when none matches. */
  function MaxSequence(docs: seq<DocumentData>, suffix: string): nat {
    if docs == [] then 0
    else
      var m := MaxSequence(docs[..|docs| - 1], suffix);
      var s := SequenceOf(docs[|docs| - 1], suffix);
      if s.Some? && s.value > m then s.value else m
  }

  lemma MaxSequenceStep(docs: seq<DocumentData>, i: nat, suffix: string)
    requires i < |docs|
    ensures var m := MaxSequence(docs[..i], suffix);
            var s := SequenceOf(docs[i], suffix);
            MaxSequence(docs[..i + 1], suffix) == if s.Some? && s.value > m then s.value else m
  {
    assert docs[..i + 1][..i] == docs[..i];
  }

  /** The `forEach` pass of `getNextDocumentNumber`: the running maximum over the matched sequences. */
  method LargestSequence(docs: seq<DocumentData>, suffix: string) returns (maxSequence: nat)
    ensures maxSequence == MaxSequence(docs, suffix)
  {
    maxSequence := 0;
    var i := 0;
    while i < |docs|
      invariant 0 <= i <= |docs|
      invariant maxSequence == MaxSequence(docs[..i], suffix)
    {
      MaxSequenceStep(docs, i, suffix);
      var d := docs[i];
      if d.number != "" {
        var found := MatchSequence(d.number, suffix);
        if found.Some? {
          var sequence := found.value;
          if sequence > maxSequence {
            maxSequence := sequence;
          }
        }
      }
      i := i + 1;
    }
    assert docs[..i] == docs;
  }

  /** `getNextDocumentNumber(docs)`: one past the largest sequence used with this month's suffix. */
  method NextNumber(docs: seq<DocumentData>, month: nat, year: nat) returns (r: string)
    ensures r == NatToString(MaxSequence(docs, PeriodSuffix(month, year)) + 1) + "-" + PeriodSuffix(month, year)
  {
    var suffix := PeriodSuffix(month, year);
    var maxSequence := LargestSequence(docs, suffix);
    r := NatToString(maxSequence + 1) + "-" + suffix;
  }

  /** The maximum bounds every matched sequence and, when positive, is one of them. */
  lemma {:induction false} MaxSequenceIsMaximum(docs: seq<DocumentData>, suffix: string)
    ensures forall k :: 0 <= k < |docs| && SequenceOf(docs[k], suffix).Some? ==> SequenceOf(docs[k], suffix).value <= MaxSequence(docs, suffix)
    ensures MaxSequence(docs, suffix) > 0 ==>
              exists k :: 0 <= k < |docs| && SequenceOf(docs[k], suffix) == Some(MaxSequence(docs, suffix))
    decreases |docs|
  {
    if docs != [] {
      var init := docs[..|docs| - 1];
      MaxSequenceIsMaximum(init, suffix);
      assert forall k :: 0 <= k < |init| ==> docs[k] == init[k];
      if MaxSequence(docs, suffix) > 0 && MaxSequence(docs, suffix) == MaxSequence(init, suffix) {
        var k :| 0 <= k < |init| && SequenceOf(init[k], suffix) == Some(MaxSequence(init, suffix));
        assert docs[k] == init[k];
      }
    }
  }

  /** The new sequence is strictly greater than every sequence matched this month. */
  lemma NextSequenceExceedsAll(docs: seq<DocumentData>, month: nat, year: nat)
    ensures forall k :: 0 <= k < |docs| && SequenceOf(docs[k], PeriodSuffix(month, year)).Some? ==>
              SequenceOf(docs[k], PeriodSuffix(month, year)).value < MaxSequence(docs, PeriodSuffix(month, year)) + 1
  {
    MaxSequenceIsMaximum(docs, PeriodSuffix(month, year));
  }

  lemma {:induction false} NoMatchMaxZero(docs: seq<DocumentData>, suffix: string)
    requires forall k :: 0 <= k < |docs| ==> SequenceOf(docs[k], suffix).None?
    ensures MaxSequence(docs, suffix) == 0
    decreases |docs|
  {
    if docs != [] {
      var init := docs[..|docs| - 1];
      assert forall k :: 0 <= k < |init| ==> init[k] == docs[k];
      NoMatchMaxZero(init, suffix);
    }
  }

  /** With no number of this month in the store, the result is `1-MMYY`, the fixture's number. */
  lemma NoMatchStartsAtOne(docs: seq<DocumentData>, month: nat, year: nat)
    requires forall k :: 0 <= k < |docs| ==> SequenceOf(docs[k], PeriodSuffix(month, year)).None?
    ensures MaxSequence(docs, PeriodSuffix(month, year)) == 0
    ensures NatToString(1) + "-" + PeriodSuffix(month, year) == Constants.InitialNumber(month, year)
  {
    NoMatchMaxZero(docs, PeriodSuffix(month, year));
    FirstNumberIsInitial(month, year);
  }

  lemma FirstNumberIsInitial(month: nat, year: nat)
    ensures NatToString(1) + "-" + PeriodSuffix(month, year) == Constants.InitialNumber(month, year)
  {
    assert NatToString(1) + "-" == "1-";
  }

  /** Leading zeros are read as decimal (`007-1225` is 7); another month, a prefix or a stray character is no match. */
  lemma MatchCases()
    ensures MatchSequence("007-1225", "1225") == Some(7)
    ensures MatchSequence("12-1225", "1225") == Some(12)
    ensures MatchSequence("7-1125", "1225") == None
    ensures MatchSequence("FAC-7-1225", "1225") == None
    ensures MatchSequence("-1225", "1225") == None
  {
    assert "007-1225"[..3] == "007";
    assert "007"[..2] == "00" && "00"[..1] == "0" && "0"[..0] == "";
    assert "12-1225"[..2] == "12" && "12"[..1] == "1" && "1"[..0] == "";
    assert "7-1125"[2..] == "1125";
    assert "FAC-7-1225"[..5][0] == 'F';
  }

  /** Saving a document under the returned number raises the next result by exactly one. */
  lemma SavingNextNumberAdvances(docs: seq<DocumentData>, doc: DocumentData, month: nat, year: nat)
    requires doc.number == NatToString(MaxSequence(docs, PeriodSuffix(month, year)) + 1) + "-" + PeriodSuffix(month, year)
    ensures MaxSequence(docs + [doc], PeriodSuffix(month, year)) == MaxSequence(docs, PeriodSuffix(month, year)) + 1
  {
    var suffix := PeriodSuffix(month, year);
    var n := MaxSequence(docs, suffix) + 1;
    MatchSequenceComplete(NatToString(n), suffix);
    ParseNatToString(n);
    assert |doc.number| > 0;
    assert SequenceOf(doc, suffix) == Some(n);
    MaxSequenceStep(docs + [doc], |docs|, suffix);
    assert (docs + [doc])[..|docs|] == docs;
    assert (docs + [doc])[..|docs| + 1] == docs + [doc];
  }

  /** The newer shell's default-scheme number with no prefix is read back by this one as its count. */
  lemma ReadsNewerNumbering(docs: seq<DocumentData>, month: nat, year: nat)
    ensures MatchSequence(SrcApp.NextNumber(docs, None, None, month, year), PeriodSuffix(month, year)) == Some(|docs| + 1)
  {
    var n := NatToString(|docs| + 1);
    SrcApp.DefaultNumber(docs, month, year);
    MatchSequenceComplete(n, PeriodSuffix(month, year));
    ParseNatToString(|docs| + 1);
  }

  // ---------------------------------------------------------------------------
  // New document
  // ---------------------------------------------------------------------------

  /** `handleManualCreate`: the sample document (built at `loadMonth`/`loadYear`/`loadDay`) with a fresh id, the next number and today's date. */
  method ManualDocument(docs: seq<DocumentData>, freshId: string, month: nat, year: nat, today: string,
                        loadMonth: nat, loadYear: nat, loadDay: string) returns (r: DocumentData)
    ensures var initial := Constants.InitialDocument(loadMonth, loadYear, loadDay);
            && r.(id := initial.id, number := initial.number, date := initial.date) == initial
            && r.id == freshId && r.date == today
            && r.number == NatToString(MaxSequence(docs, PeriodSuffix(month, year)) + 1) + "-" + PeriodSuffix(month, year)
            && DocumentEditor.Consistent(r) && DocumentEditor.Recomputed(r) == r
  {
    var nextNumber := NextNumber(docs, month, year);
    r := Constants.InitialDocument(loadMonth, loadYear, loadDay).(id := freshId, number := nextNumber, date := today);
    DocumentEditor.InitialDocumentIsFixedPoint(loadMonth, loadYear, loadDay);
    DocumentEditor.FixedPointIffConsistent(r);
  }

  // ---------------------------------------------------------------------------
  // Profile merge
  // ---------------------------------------------------------------------------

  /** What the scan of a company document yields: any of the ten fields, possibly empty. */
  datatype ExtractedProfile = ExtractedProfile(
    name: Option<string>,
    address: Option<string>,
    phone: Option<string>,
    email: Option<string>,
    ice: Option<string>,
    rc: Option<string>,
    ifTax: Option<string>,
    patente: Option<string>,
    bankName: Option<string>,
    rib: Option<string>)

  /** `analyzed.f || prev.f` for an optional field. */
  function PreferNonEmpty(extracted: Option<string>, previous: Option<string>): (r: Option<string>)
    ensures extracted.Some? && extracted.value != "" ==> r == extracted
    ensures extracted.None? || extracted == Some("") ==> r == previous
  {
    if extracted.Some? && extracted.value != "" then extracted else previous
  }

  /** The merge in `handleDocAnalyze`: each of the ten fields prefers the extracted value when it is non-empty. */
  function MergeProfile(prev: CompanyProfile, analyzed: ExtractedProfile): CompanyProfile {
    prev.(
      name := NonEmptyOr(analyzed.name, prev.name),
      address := NonEmptyOr(analyzed.address, prev.address),
      phone := NonEmptyOr(analyzed.phone, prev.phone),
      email := NonEmptyOr(analyzed.email, prev.email),
      ice := PreferNonEmpty(analyzed.ice, prev.ice),
      rc := PreferNonEmpty(analyzed.rc, prev.rc),
      ifTax := PreferNonEmpty(analyzed.ifTax, prev.ifTax),
      patente := PreferNonEmpty(analyzed.patente, prev.patente),
      bankName := PreferNonEmpty(analyzed.bankName, prev.bankName),
      rib := PreferNonEmpty(analyzed.rib, prev.rib))
  }

  predicate Present(s: Option<string>) {
    s.Some? && s.value != ""
  }

  /**
   * Field by field: a present extracted value wins, an absent or empty one keeps the previous value;
   * the fields the scan does not cover (website, CNSS, logo, numbering) never change.
   */
  lemma MergeProfileFields(prev: CompanyProfile, analyzed: ExtractedProfile)
    ensures var r := MergeProfile(prev, analyzed);
            && r.name == (if Present(analyzed.name) then analyzed.name.value else prev.name)
            && r.address == (if Present(analyzed.address) then analyzed.address.value else prev.address)
            && r.phone == (if Present(analyzed.phone) then analyzed.phone.value else prev.phone)
            && r.email == (if Present(analyzed.email) then analyzed.email.value else prev.email)
            && r.ice == (if Present(analyzed.ice) then analyzed.ice else prev.ice)
            && r.rc == (if Present(analyzed.rc) then analyzed.rc else prev.rc)
            && r.ifTax == (if Present(analyzed.ifTax) then analyzed.ifTax else prev.ifTax)
            && r.patente == (if Present(analyzed.patente) then analyzed.patente else prev.patente)
            && r.bankName == (if Present(analyzed.bankName) then analyzed.bankName else prev.bankName)
            && r.rib == (if Present(analyzed.rib) then analyzed.rib else prev.rib)
            && r.website == prev.website && r.cnss == prev.cnss && r.logoUrl == prev.logoUrl
            && r.docNumberFormat == prev.docNumberFormat && r.docNumberPrefix == prev.docNumberPrefix
  {
  }

  /** A scan that found nothing leaves the profile as it was. */
  lemma MergeNothingIsIdentity(prev: CompanyProfile, analyzed: ExtractedProfile)
    requires !Present(analyzed.name) && !Present(analyzed.address) && !Present(analyzed.phone) && !Present(analyzed.email)
    requires !Present(analyzed.ice) && !Present(analyzed.rc) && !Present(analyzed.ifTax)
    requires !Present(analyzed.patente) && !Present(analyzed.bankName) && !Present(analyzed.rib)
    ensures MergeProfile(prev, analyzed) == prev
  {
  }

  /** Merging the same scan twice is merging it once. */
  lemma MergeIdempotent(prev: CompanyProfile, analyzed: ExtractedProfile)
    ensures MergeProfile(MergeProfile(prev, analyzed), analyzed) == MergeProfile(prev, analyzed)
  {
  }
}

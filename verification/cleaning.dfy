/**
 * The offline cleaning script `src/data_cleaning.py`, as a function from the raw rows of
 * `vgsales.csv` to the rows it writes to `vgsales_clean.csv`:
 *   1. drop rows whose Year or Global_Sales is missing, fill a missing Publisher with "Unknown";
 *   2. drop later duplicates of the key (Name, Platform);
 *   3. `clean_text` the Name, Platform, Genre and Publisher columns;
 *   4. derive Decade, FranchiseTag and Total_Regional_Sales.
 * Sales figures are integers (hundredths of the CSV's million-unit figures).
 */
module Cleaning {
  import opened Wrappers
  import opened Seqs
  import opened Text
  import opened Franchise

  /** A sales figure in hundredths of a million units. */
  type Sales = int

  /** One row of the raw dataset; every cell may be missing. */
  datatype RawRow = RawRow(
    name: Option<string>,
    platform: Option<string>,
    year: Option<int>,
    genre: Option<string>,
    publisher: Option<string>,
    naSales: Option<Sales>,
    euSales: Option<Sales>,
    jpSales: Option<Sales>,
    otherSales: Option<Sales>,
    globalSales: Option<Sales>)

  /** One row of the cleaned dataset. The regional columns pass through unchanged. */
  datatype CleanRow = CleanRow(
    name: string,
    platform: string,
    year: int,
    genre: string,
    publisher: string,
    naSales: Option<Sales>,
    euSales: Option<Sales>,
    jpSales: Option<Sales>,
    otherSales: Option<Sales>,
    globalSales: Sales,
    decade: int,
    franchiseTag: int,
    totalRegionalSales: Sales)

  // Step 1: missing values.

  predicate HasYearAndSales(r: RawRow) {
    r.year.Some? && r.globalSales.Some?
  }

  /** `df.dropna(subset=["Year", "Global_Sales"])`. */
  function DropIncomplete(rows: seq<RawRow>): (out: seq<RawRow>)
    ensures forall i :: 0 <= i < |out| ==> HasYearAndSales(out[i])
    ensures forall r :: multiset(out)[r] == if HasYearAndSales(r) then multiset(rows)[r] else 0
    ensures IsSubseq(out, rows)
  {
    Filter(rows, HasYearAndSales)
  }

  const UnknownPublisher: string := "Unknown"

  function FillPublisherRow(r: RawRow): RawRow {
    r.(publisher := Some(r.publisher.GetOr(UnknownPublisher)))
  }

  /** `df["Publisher"].fillna("Unknown")`: the publisher is "Unknown" where it was missing, is
      otherwise unchanged, and no other cell of any row changes. */
  function FillPublisher(rows: seq<RawRow>): (out: seq<RawRow>)
    ensures |out| == |rows|
    ensures forall i :: 0 <= i < |rows| ==> out[i].publisher.Some?
    ensures forall i :: 0 <= i < |rows| && rows[i].publisher.None? ==> out[i].publisher.value == UnknownPublisher
    ensures forall i :: 0 <= i < |rows| && rows[i].publisher.Some? ==> out[i].publisher == rows[i].publisher
    ensures forall i :: 0 <= i < |rows| ==> out[i].(publisher := rows[i].publisher) == rows[i]
  {
    seq(|rows|, i requires 0 <= i < |rows| => FillPublisherRow(rows[i]))
  }

  // Step 2: duplicates on (Name, Platform). pandas compares missing keys as equal, as Option does.

  type DedupKey = (Option<string>, Option<string>)

  function KeyOf(r: RawRow): DedupKey {
    (r.name, r.platform)
  }

  /** The keys that occur among `rows`. */
  function KeySet(rows: seq<RawRow>): set<DedupKey> {
    set i | 0 <= i < |rows| :: KeyOf(rows[i])
  }

  /** No two rows share a key. */
  predicate DistinctKeys(rows: seq<RawRow>) {
    forall i, j :: 0 <= i < j < |rows| ==> KeyOf(rows[i]) != KeyOf(rows[j])
  }

  /** Index of the first row with key `k`, or `|rows|` when there is none. */
  function FirstIndex(rows: seq<RawRow>, k: DedupKey): (idx: nat)
    ensures idx <= |rows|
    ensures idx < |rows| ==> KeyOf(rows[idx]) == k
    ensures forall j :: 0 <= j < idx ==> KeyOf(rows[j]) != k
    decreases |rows|
  {
    if |rows| == 0 then 0
    else if KeyOf(rows[0]) == k then 0
    else 1 + FirstIndex(rows[1..], k)
  }

  /** Keep-first deduplication of `rows`, where the keys in `seen` already occurred earlier. */
  function DedupeFrom(rows: seq<RawRow>, seen: set<DedupKey>): (out: seq<RawRow>)
    ensures IsSubseq(out, rows)
    ensures DistinctKeys(out)
    ensures forall i :: 0 <= i < |out| ==> KeyOf(out[i]) !in seen
    ensures KeySet(out) == KeySet(rows) - seen
    ensures forall i :: 0 <= i < |out| ==>
      FirstIndex(rows, KeyOf(out[i])) < |rows| && out[i] == rows[FirstIndex(rows, KeyOf(out[i]))]
    ensures forall i, j :: 0 <= i < j < |out| ==> FirstIndex(rows, KeyOf(out[i])) < FirstIndex(rows, KeyOf(out[j]))
    decreases |rows|
  {
    if |rows| == 0 then []
    else
      var k := KeyOf(rows[0]);
      assert KeySet(rows) == {k} + KeySet(rows[1..]) by {
        KeySetCons(rows);
      }
      if k in seen then
        DedupeFrom(rows[1..], seen)
      else
        var rest := DedupeFrom(rows[1..], seen + {k});
        assert KeySet([rows[0]] + rest) == {k} + KeySet(rest) by {
          KeySetCons([rows[0]] + rest);
          assert ([rows[0]] + rest)[1..] == rest;
        }
        [rows[0]] + rest
  }

  /** The keys of a non-empty sequence: its head's key and the keys of its tail. */
  lemma KeySetCons(rows: seq<RawRow>)
    requires |rows| > 0
    ensures KeySet(rows) == {KeyOf(rows[0])} + KeySet(rows[1..])
  {
    forall k | k in KeySet(rows) ensures k in {KeyOf(rows[0])} + KeySet(rows[1..]) {
      var i :| 0 <= i < |rows| && KeyOf(rows[i]) == k;
      if i > 0 {
        assert KeyOf(rows[1..][i - 1]) == k;
      }
    }
    forall k | k in KeySet(rows[1..]) ensures k in KeySet(rows) {
      var i :| 0 <= i < |rows[1..]| && KeyOf(rows[1..][i]) == k;
      assert KeyOf(rows[i + 1]) == k;
    }
  }

  /** `df.drop_duplicates(subset=["Name", "Platform"])`, keeping the first occurrence. */
  function Dedupe(rows: seq<RawRow>): (out: seq<RawRow>)
    ensures IsSubseq(out, rows)
    ensures DistinctKeys(out)
    ensures KeySet(out) == KeySet(rows)
    ensures forall i :: 0 <= i < |out| ==>
      FirstIndex(rows, KeyOf(out[i])) < |rows| && out[i] == rows[FirstIndex(rows, KeyOf(out[i]))]
    ensures forall i, j :: 0 <= i < j < |out| ==> FirstIndex(rows, KeyOf(out[i])) < FirstIndex(rows, KeyOf(out[j]))
  {
    DedupeFrom(rows, {})
  }

  /** The same deduplication as a single pass with a set of keys already seen, the way a
      hash-based `drop_duplicates` computes it. */
  method DropDuplicates(rows: seq<RawRow>) returns (out: seq<RawRow>)
    ensures out == Dedupe(rows)
  {
    var seen: set<DedupKey> := {};
    out := [];
    var i := 0;
    while i < |rows|
      invariant 0 <= i <= |rows|
      invariant out + DedupeFrom(rows[i..], seen) == Dedupe(rows)
    {
      var k := KeyOf(rows[i]);
      DedupeLoopStep(rows, i, out, seen);
      if k !in seen {
        out := out + [rows[i]];
        seen := seen + {k};
      }
      i := i + 1;
    }
    assert rows[i..] == [];
  }

  /** One step of keep-first deduplication: the head is kept exactly when its key is unseen. */
  lemma DedupeFromStep(rows: seq<RawRow>, seen: set<DedupKey>)
    requires |rows| > 0
    ensures KeyOf(rows[0]) in seen ==> DedupeFrom(rows, seen) == DedupeFrom(rows[1..], seen)
    ensures KeyOf(rows[0]) !in seen ==>
      DedupeFrom(rows, seen) == [rows[0]] + DedupeFrom(rows[1..], seen + {KeyOf(rows[0])})
  {
  }

  /** The loop of `DropDuplicates` keeps its invariant across one row. */
  lemma DedupeLoopStep(rows: seq<RawRow>, i: int, out: seq<RawRow>, seen: set<DedupKey>)
    requires 0 <= i < |rows|
    ensures var k := KeyOf(rows[i]);
      out + DedupeFrom(rows[i..], seen) ==
        if k in seen then out + DedupeFrom(rows[i + 1..], seen)
        else (out + [rows[i]]) + DedupeFrom(rows[i + 1..], seen + {k})
  {
    DedupeFromStep(rows[i..], seen);
    assert rows[i..][1..] == rows[i + 1..];
  }

  /** Rows with pairwise distinct keys have as many keys as rows. */
  lemma {:induction false} DistinctKeysCount(rows: seq<RawRow>)
    requires DistinctKeys(rows)
    ensures |KeySet(rows)| == |rows|
    decreases |rows|
  {
    if |rows| > 0 {
      KeySetCons(rows);
      DistinctKeysCount(rows[1..]);
      assert KeyOf(rows[0]) !in KeySet(rows[1..]);
    }
  }

  /** Filling publishers changes no key. */
  lemma FillPublisherKeys(rows: seq<RawRow>)
    ensures forall i :: 0 <= i < |rows| ==> KeyOf(FillPublisher(rows)[i]) == KeyOf(rows[i])
    ensures KeySet(FillPublisher(rows)) == KeySet(rows)
  {
  }

  // Step 4: derived columns.

  /** `(Year // 10) * 10`. Dafny's `/` with a positive divisor rounds down, as Python's `//` does. */
  function Decade(year: int): (d: int)
    ensures d % 10 == 0 && d <= year < d + 10
  {
    (year / 10) * 10
  }

  /** The decade is the only multiple of ten at most `year` and within ten of it. */
  lemma DecadeUnique(year: int, d: int)
    requires d % 10 == 0 && d <= year < d + 10
    ensures d == Decade(year)
  {
    var q := d / 10;
    assert d == 10 * q;
    assert year == 10 * q + (year - d);
    assert year / 10 == q;
  }

  /** Sum of the present figures: `sum(axis=1)` skips missing cells. */
  function SumPresent(xs: seq<Option<Sales>>): Sales {
    if |xs| == 0 then 0 else xs[0].GetOr(0) + SumPresent(xs[1..])
  }

  /** `df[["NA_Sales","EU_Sales","JP_Sales","Other_Sales"]].sum(axis=1)`. */
  function RegionalTotal(na: Option<Sales>, eu: Option<Sales>, jp: Option<Sales>, other: Option<Sales>): (t: Sales)
    ensures t == SumPresent([na, eu, jp, other])
    ensures na.Some? && eu.Some? && jp.Some? && other.Some? ==>
      t == na.value + eu.value + jp.value + other.value
  {
    assert [na, eu, jp, other][1..] == [eu, jp, other];
    assert [eu, jp, other][1..] == [jp, other];
    assert [jp, other][1..] == [other];
    assert [other][1..] == [];
    assert SumPresent([other]) == other.GetOr(0);
    assert SumPresent([jp, other]) == jp.GetOr(0) + other.GetOr(0);
    assert SumPresent([eu, jp, other]) == eu.GetOr(0) + jp.GetOr(0) + other.GetOr(0);
    na.GetOr(0) + eu.GetOr(0) + jp.GetOr(0) + other.GetOr(0)
  }

  /** The invariants every written row satisfies. */
  predicate WellFormed(c: CleanRow) {
    && IsCleaned(c.name) && IsCleaned(c.platform) && IsCleaned(c.genre) && IsCleaned(c.publisher)
    && c.decade % 10 == 0 && c.decade <= c.year < c.decade + 10
    && (c.franchiseTag == 0 || c.franchiseTag == 1)
    && (c.franchiseTag == 1 <==> HasFranchiseToken(c.name))
    && c.totalRegionalSales == SumPresent([c.naSales, c.euSales, c.jpSales, c.otherSales])
  }

  /** Text normalisation and derived columns for one row that survived step 1. */
  function Derive(r: RawRow): (c: CleanRow)
    requires HasYearAndSales(r)
    ensures WellFormed(c)
    ensures c.year == r.year.value && c.globalSales == r.globalSales.value
    ensures c.naSales == r.naSales && c.euSales == r.euSales && c.jpSales == r.jpSales && c.otherSales == r.otherSales
    ensures c.name == CleanText(r.name) && c.platform == CleanText(r.platform)
    ensures c.genre == CleanText(r.genre) && c.publisher == CleanText(r.publisher)
  {
    var name := CleanText(r.name);
    CleanRow(
      name,
      CleanText(r.platform),
      r.year.value,
      CleanText(r.genre),
      CleanText(r.publisher),
      r.naSales, r.euSales, r.jpSales, r.otherSales,
      r.globalSales.value,
      Decade(r.year.value),
      FranchiseTag(name),
      RegionalTotal(r.naSales, r.euSales, r.jpSales, r.otherSales))
  }

  /** The rows that reach step 3: complete, publisher filled, first of their key. */
  function Survivors(raw: seq<RawRow>): (kept: seq<RawRow>)
    ensures forall i :: 0 <= i < |kept| ==> HasYearAndSales(kept[i]) && kept[i].publisher.Some?
    ensures DistinctKeys(kept) && KeySet(kept) == KeySet(DropIncomplete(raw))
  {
    FillPublisherKeys(DropIncomplete(raw));
    var filled := FillPublisher(DropIncomplete(raw));
    var kept := Dedupe(filled);
    SubseqMembers(kept, filled);
    assert forall i :: 0 <= i < |kept| ==> kept[i] in filled;
    kept
  }

  /** A publisher missing from the raw data is written as "unknown": the fill value is
      normalised like every other publisher. */
  lemma MissingPublisherIsUnknown(r: RawRow)
    requires HasYearAndSales(r) && r.publisher.None?
    ensures Derive(FillPublisherRow(r)).publisher == "unknown"
  {
    UnknownCleansToLowerCase();
  }

  lemma UnknownCleansToLowerCase()
    ensures CleanText(Some(UnknownPublisher)) == "unknown"
  {
    LowerUnknown();
    CaseInsensitive(UnknownPublisher);
    UnknownIsCleaned();
    CleanTextFixed("unknown");
  }

  lemma LowerUnknown()
    ensures Lower(UnknownPublisher) == "unknown"
  {
  }

  lemma UnknownIsCleaned()
    ensures IsCleaned("unknown") && !IsSpace('u') && !IsSpace('n')
  {
    var s := "unknown";
    forall i | 0 <= i < |s| ensures IsKept(s[i]) {
      assert s[i] in {'u', 'n', 'k', 'o', 'w'};
    }
  }

  /** The whole script: the rows written to the cleaned file, one per survivor and in the
      survivors' order, so one per distinct (Name, Platform) key among the complete raw rows. */
  function CleanDataset(raw: seq<RawRow>): (out: seq<CleanRow>)
    ensures |out| == |KeySet(DropIncomplete(raw))|
    ensures forall i :: 0 <= i < |out| ==> WellFormed(out[i])
    ensures |out| == |Survivors(raw)| && forall i :: 0 <= i < |out| ==> out[i] == Derive(Survivors(raw)[i])
  {
    var kept := Survivors(raw);
    FillPublisherKeys(DropIncomplete(raw));
    DistinctKeysCount(kept);
    seq(|kept|, i requires 0 <= i < |kept| => Derive(kept[i]))
  }

  /** Each written row is derived from the first complete raw row with its (Name, Platform)
      key, with a missing publisher filled in. */
  lemma CleanDatasetTrace(raw: seq<RawRow>, i: int)
    requires 0 <= i < |CleanDataset(raw)|
    ensures var complete := DropIncomplete(raw);
      exists j :: 0 <= j < |complete| && j == FirstIndex(complete, KeyOf(complete[j]))
        && CleanDataset(raw)[i] == Derive(FillPublisherRow(complete[j]))
  {
    var complete := DropIncomplete(raw);
    var filled := FillPublisher(complete);
    var kept := Dedupe(filled);
    CleanDatasetAt(raw, i);
    assert Survivors(raw) == kept;
    var j := FirstIndex(filled, KeyOf(kept[i]));
    assert kept[i] == filled[j];
    FillPublisherAt(complete, j);
    FillPublisherKeys(complete);
    FirstIndexSameKeys(complete, filled, KeyOf(kept[i]));
    assert CleanDataset(raw)[i] == Derive(FillPublisherRow(complete[j]));
  }

  lemma FillPublisherAt(rows: seq<RawRow>, j: int)
    requires 0 <= j < |rows|
    ensures FillPublisher(rows)[j] == FillPublisherRow(rows[j])
  {
  }

  /** `FirstIndex` depends on the keys alone. */
  lemma {:induction false} FirstIndexSameKeys(a: seq<RawRow>, b: seq<RawRow>, k: DedupKey)
    requires |a| == |b| && forall i :: 0 <= i < |a| ==> KeyOf(a[i]) == KeyOf(b[i])
    ensures FirstIndex(a, k) == FirstIndex(b, k)
    decreases |a|
  {
    if |a| > 0 {
      FirstIndexSameKeys(a[1..], b[1..], k);
    }
  }

  /** Deduplication runs before text normalisation, so two raw names that differ only in case
      both survive and are written with the same cleaned (Name, Platform). */
  lemma CleanedKeysMayRepeat()
    ensures var out := CleanDataset(CaseVariants());
      |out| == 2 && out[0].name == out[1].name && out[0].platform == out[1].platform
  {
    CaseVariantsKeys();
    CaseVariantsSurvive();
    CaseFoldedName();
    SameCleanedKeys(CaseVariants(), "A", "a", "x");
  }

  /** When every survivor's name is one of two spellings that clean alike, and all share one
      platform, every written row carries the same cleaned (Name, Platform). */
  lemma SameCleanedKeys(raw: seq<RawRow>, a: string, b: string, x: string)
    requires CleanText(Some(a)) == CleanText(Some(b))
    requires forall i :: 0 <= i < |Survivors(raw)| ==>
      Survivors(raw)[i].name in {Some(a), Some(b)} && Survivors(raw)[i].platform == Some(x)
    ensures forall i :: 0 <= i < |CleanDataset(raw)| ==>
      CleanDataset(raw)[i].name == CleanText(Some(b)) && CleanDataset(raw)[i].platform == CleanText(Some(x))
  {
    forall i | 0 <= i < |CleanDataset(raw)|
      ensures CleanDataset(raw)[i].name == CleanText(Some(b))
      ensures CleanDataset(raw)[i].platform == CleanText(Some(x))
    {
      CleanDatasetKeysAt(raw, i);
      var r := Survivors(raw)[i];
      assert r.name == Some(a) || r.name == Some(b);
    }
  }

  lemma CaseFoldedName()
    ensures CleanText(Some("A")) == CleanText(Some("a"))
  {
    CaseInsensitive("A");
    assert Lower("A") == "a";
  }

  /** The i-th written row is the i-th survivor with its text columns cleaned. */
  lemma CleanDatasetAt(raw: seq<RawRow>, i: int)
    requires 0 <= i < |CleanDataset(raw)|
    ensures |Survivors(raw)| == |CleanDataset(raw)|
    ensures CleanDataset(raw)[i] == Derive(Survivors(raw)[i])
  {
  }

  /** The cleaned (Name, Platform) of the i-th written row are those of the i-th survivor. */
  lemma CleanDatasetKeysAt(raw: seq<RawRow>, i: int)
    requires 0 <= i < |CleanDataset(raw)|
    ensures |Survivors(raw)| == |CleanDataset(raw)|
    ensures CleanDataset(raw)[i].name == CleanText(Survivors(raw)[i].name)
    ensures CleanDataset(raw)[i].platform == CleanText(Survivors(raw)[i].platform)
  {
    CleanDatasetAt(raw, i);
  }

  /** Two complete raw rows named "A" and "a" on the same platform. */
  function CaseVariants(): seq<RawRow> {
    [ RawRow(Some("A"), Some("x"), Some(2000), None, None, None, None, None, None, Some(100)),
      RawRow(Some("a"), Some("x"), Some(2000), None, None, None, None, None, None, Some(50)) ]
  }

  lemma CaseVariantsKeys()
    ensures DropIncomplete(CaseVariants()) == CaseVariants()
    ensures |KeySet(DropIncomplete(CaseVariants()))| == 2
  {
    CaseVariantsComplete();
    CaseVariantsDistinct();
    DistinctKeysCount(CaseVariants());
  }

  lemma CaseVariantsComplete()
    ensures DropIncomplete(CaseVariants()) == CaseVariants()
  {
    FilterAll(CaseVariants(), HasYearAndSales);
  }

  lemma CaseVariantsDistinct()
    ensures DistinctKeys(CaseVariants())
  {
    var raw := CaseVariants();
    assert KeyOf(raw[0]) != KeyOf(raw[1]) by { assert "A"[0] != "a"[0]; }
  }

  lemma CaseVariantsSurvive()
    ensures forall i :: 0 <= i < |Survivors(CaseVariants())| ==>
      Survivors(CaseVariants())[i].name in {Some("A"), Some("a")} && Survivors(CaseVariants())[i].platform == Some("x")
  {
    var raw := CaseVariants();
    var filled := FillPublisher(DropIncomplete(raw));
    var kept := Dedupe(filled);
    SubseqMembers(kept, filled);
    forall i | 0 <= i < |kept| ensures kept[i].name in {Some("A"), Some("a")} && kept[i].platform == Some("x") {
      assert kept[i] in filled;
    }
  }
}

/** The material record the materials endpoint returns, and the selections the
    script makes over a list of them: the section filter, the lookup by `_id`
    and the distinct-section count shown in the statistics counters. */
module Materials {
  import opened Wrappers

  /** One material as received. Optional text fields are strings in which ""
      stands for a missing, null or empty value. Most of them the script only
      checks for truthiness; where it does not, the three differ in the script
      and not here. */
  datatype Material = Material(
    id: string,           // `_id`
    section: string,      // lectures | practicals | presentations | books
    title: string,
    description: string,
    desc: string,         // the second description fallback (`item.desc`)
    imageUrl: string,
    imageKey: string,
    fileUrl: string,
    fileKey: string,
    fileName: string)

  /** The filter value that selects every material. */
  const AllSections := "all"

  /** Order-preserving selection of the materials whose section is `code`. */
  function OfSection(ms: seq<Material>, code: string): (r: seq<Material>)
    ensures |r| <= |ms|
    ensures forall m :: m in r ==> m.section == code
    ensures forall m: Material :: m.section == code ==> multiset(r)[m] == multiset(ms)[m]
  {
    if ms == [] then []
    else
      var rest := OfSection(ms[1..], code);
      assert ms == [ms[0]] + ms[1..];
      if ms[0].section == code then [ms[0]] + rest else rest
  }

  /** `sub` is `ms` with some elements left out and the rest kept in order. */
  predicate IsSubsequence(sub: seq<Material>, ms: seq<Material>)
    decreases |ms|
  {
    if sub == [] then true
    else if ms == [] then false
    else if sub[0] == ms[0] then IsSubsequence(sub[1..], ms[1..])
    else IsSubsequence(sub, ms[1..])
  }

  lemma {:induction false} OfSectionIsSubsequence(ms: seq<Material>, code: string)
    ensures IsSubsequence(OfSection(ms, code), ms)
  {
    if ms != [] {
      OfSectionIsSubsequence(ms[1..], code);
    }
  }

  /** The list `filterMaterials` renders: the whole cache for "all", otherwise the
      materials of the chosen section. */
  function SelectSection(cache: seq<Material>, filterValue: string): (r: seq<Material>)
    ensures filterValue == AllSections ==> r == cache
    ensures filterValue != AllSections ==> forall m :: m in r ==> m.section == filterValue
    ensures |r| <= |cache|
  {
    if filterValue == AllSections then cache else OfSection(cache, filterValue)
  }

  /** "all" selects the cache exactly. Any other value selects an
      order-preserving subsequence of the cache, no longer than it, that holds
      each material of that section as often as the cache does and nothing else. */
  lemma SelectionIsSectionSubsequence(cache: seq<Material>, filterValue: string)
    ensures filterValue == AllSections ==> SelectSection(cache, filterValue) == cache
    ensures IsSubsequence(SelectSection(cache, filterValue), cache)
    ensures |SelectSection(cache, filterValue)| <= |cache|
    ensures filterValue != AllSections ==>
              (forall m :: m in SelectSection(cache, filterValue) ==> m.section == filterValue) &&
              (forall m: Material :: m.section == filterValue ==>
                 multiset(SelectSection(cache, filterValue))[m] == multiset(cache)[m])
  {
    if filterValue == AllSections {
      SubsequenceReflexive(cache);
    } else {
      OfSectionIsSubsequence(cache, filterValue);
    }
  }

  lemma {:induction false} SubsequenceReflexive(ms: seq<Material>)
    ensures IsSubsequence(ms, ms)
  {
    if ms != [] {
      SubsequenceReflexive(ms[1..]);
    }
  }

  lemma {:induction false} OfSectionKeepsMatching(ms: seq<Material>, code: string)
    requires forall m :: m in ms ==> m.section == code
    ensures OfSection(ms, code) == ms
  {
    if ms != [] {
      assert ms[0] in ms;
      assert forall m :: m in ms[1..] ==> m in ms;
      OfSectionKeepsMatching(ms[1..], code);
    }
  }

  /** Filtering a filtered list again by the same value changes nothing. */
  lemma SelectSectionIdempotent(cache: seq<Material>, filterValue: string)
    ensures SelectSection(SelectSection(cache, filterValue), filterValue)
         == SelectSection(cache, filterValue)
  {
    if filterValue != AllSections {
      OfSectionKeepsMatching(OfSection(cache, filterValue), filterValue);
    }
  }

  /** The index of the first material whose `_id` is `id`, searching from `from`
      (`materials.find(m => m._id === id)`). */
  function FindFrom(ms: seq<Material>, id: string, from: nat): (r: Option<nat>)
    requires from <= |ms|
    ensures r.Some? ==> from <= r.value < |ms| && ms[r.value].id == id
    ensures r.Some? ==> forall j :: from <= j < r.value ==> ms[j].id != id
    ensures r.None? ==> forall j :: from <= j < |ms| ==> ms[j].id != id
    decreases |ms| - from
  {
    if from == |ms| then None
    else if ms[from].id == id then Some(from)
    else FindFrom(ms, id, from + 1)
  }

  /** `k` is the position of the first material with `_id` equal to `id`. */
  predicate IsFirstWithId(ms: seq<Material>, id: string, k: int) {
    0 <= k < |ms| && ms[k].id == id && forall j :: 0 <= j < k ==> ms[j].id != id
  }

  /** The sections of `ms` without repetitions, in order of first appearance
      (`[...new Set(materials.map(m => m.section))]`). */
  function DistinctSections(ms: seq<Material>): (r: seq<string>)
    ensures forall i, j :: 0 <= i < j < |r| ==> r[i] != r[j]
    ensures forall s :: s in r <==> s in SectionSet(ms)
    ensures |r| <= |ms|
    decreases |ms|
  {
    if ms == [] then []
    else
      var init := ms[..|ms| - 1];
      var last := ms[|ms| - 1];
      assert ms == init + [last];
      var rest := DistinctSections(init);
      if last.section in rest then rest else rest + [last.section]
  }

  /** The set of sections the materials belong to. */
  function SectionSet(ms: seq<Material>): set<string> {
    set m | m in ms :: m.section
  }

  /** The statistics counter for sections shows the number of distinct sections. */
  lemma DistinctSectionCount(ms: seq<Material>)
    ensures |DistinctSections(ms)| == |SectionSet(ms)|
  {
    var r := DistinctSections(ms);
    assert (set s | s in r) == SectionSet(ms);
    DistinctLength(r);
  }

  lemma {:induction false} DistinctLength(r: seq<string>)
    requires forall i, j :: 0 <= i < j < |r| ==> r[i] != r[j]
    ensures |set s | s in r| == |r|
  {
    if r != [] {
      var init := r[..|r| - 1];
      DistinctLength(init);
      assert r == init + [r[|r| - 1]];
      assert r[|r| - 1] !in init;
      assert (set s | s in r) == (set s | s in init) + {r[|r| - 1]};
    }
  }
}

/** The accommodations list page: the filters over the fetched rows and heads of family, the
    set of expanded families with their loaded details, and the list of accommodation types. */
module AccommodationsPage {
  import opened Common
  import opened Text

  /** An enriched accommodation row as the page receives it. */
  datatype Row = Row(
    id: int, itsId: string, mumineenName: string, miqaatId: int, miqaatName: string,
    name: string, city: string, accommodationType: string)

  /** A member record as the page receives it; `name` is an optional field. */
  datatype Person = Person(itsId: string, hofItsId: Option<string>, fullName: string, name: Option<string>)

  /** What the page keeps per expanded family. */
  datatype FamilyGroup = FamilyGroup(hof: Person, members: seq<Person>, accommodations: seq<Row>)

  // ---------------------------------------------------------------- filterAccommodations

  /** The three filters of the list; `parseInt` giving NaN matches no id. */
  predicate Kept(a: Row, selectedMiqaat: string, selectedType: string, query: string)
  {
    && (selectedMiqaat == "all" || ParseInt(selectedMiqaat) == Some(a.miqaatId))
    && (selectedType == "all" || a.accommodationType == selectedType)
    && (query == "" || ContainsFolded(a.itsId, query) || ContainsFolded(a.mumineenName, query)
        || ContainsFolded(a.name, query) || ContainsFolded(a.city, query))
  }

  function FilterAccommodations(rows: seq<Row>, selectedMiqaat: string, selectedType: string, query: string): (r: seq<Row>)
    ensures IsSubsequence(r, rows)
    ensures forall i :: 0 <= i < |r| ==>
      && (selectedMiqaat == "all" || ParseInt(selectedMiqaat) == Some(r[i].miqaatId))
      && (selectedType == "all" || r[i].accommodationType == selectedType)
      && (query == "" || ContainsFolded(r[i].itsId, query) || ContainsFolded(r[i].mumineenName, query)
          || ContainsFolded(r[i].name, query) || ContainsFolded(r[i].city, query))
    ensures forall a :: a in rows && Kept(a, selectedMiqaat, selectedType, query) ==> a in r
    ensures ParseInt(selectedMiqaat).None? && selectedMiqaat != "all" ==> r == []
  {
    Filter(rows, (a: Row) => Kept(a, selectedMiqaat, selectedType, query))
  }

  /** With no filter selected the list is shown whole. */
  lemma NoFilterKeepsAll(rows: seq<Row>)
    ensures FilterAccommodations(rows, "all", "all", "") == rows
  {
    FilterAll(rows, (a: Row) => Kept(a, "all", "all", ""));
  }

  // ---------------------------------------------------------------- filterHofs

  predicate HofMatches(h: Person, query: string)
  {
    ContainsFolded(h.itsId, query) || ContainsFolded(h.fullName, query)
    || (h.name.Some? && ContainsFolded(h.name.value, query))
  }

  /** `filterHofs`: the list itself for an empty query, else the heads of family whose id, full
      name or name contains the query, ignoring case. */
  function FilterHofs(hofs: seq<Person>, query: string): (r: seq<Person>)
    ensures query == "" ==> r == hofs
    ensures IsSubsequence(r, hofs)
    ensures query != "" ==> forall h :: h in r <==> h in hofs && HofMatches(h, query)
  {
    if query == "" then SubsequenceRefl(hofs); hofs else Filter(hofs, (h: Person) => HofMatches(h, query))
  }

  // ---------------------------------------------------------------- accommodationTypes

  /** `[...new Set(accommodations.map(a => a.accommodation_type))]`: each type once, in order of
      first appearance. */
  function AccommodationTypes(rows: seq<Row>): (r: seq<string>)
    ensures NoDuplicates(r)
    ensures forall t :: t in r <==> exists a :: a in rows && a.accommodationType == t
  {
    if rows == [] then []
    else
      var init := rows[..|rows| - 1];
      var last := rows[|rows| - 1];
      assert rows == init + [last];
      var prev := AccommodationTypes(init);
      if last.accommodationType in prev then prev else prev + [last.accommodationType]
  }

  // ---------------------------------------------------------------- expanded families

  /** The expanded set after a toggle of `h`. */
  function Toggled(s: set<string>, h: string): (r: set<string>)
    ensures h in r <==> h !in s
    ensures forall x :: x != h ==> (x in r <==> x in s)
  {
    if h in s then s - {h} else s + {h}
  }

  /** Toggling twice restores the set. */
  lemma ToggleTwice(s: set<string>, h: string)
    ensures Toggled(Toggled(s, h), h) == s
  {
  }

  /** The head of family shown for a loaded family: the first listed one with that id, or a
      stand-in named `Unknown` without a head of its own. */
  function HofFor(hofList: seq<Person>, h: string): (r: Person)
    ensures r.itsId == h
    ensures (exists x :: x in hofList && x.itsId == h) ==> r in hofList
    ensures (forall x :: x in hofList ==> x.itsId != h) ==> r == Person(h, None, "Unknown", None)
    ensures (exists x :: x in hofList && x.itsId == h) ==>
      exists i :: 0 <= i < |hofList| && hofList[i] == r && forall j :: 0 <= j < i ==> hofList[j].itsId != h
  {
    if hofList == [] then Person(h, None, "Unknown", None)
    else if hofList[0].itsId == h then hofList[0]
    else HofFor(hofList[1..], h)
  }

  /** The page's family state. */
  class AccommodationsView {
    var hofList: seq<Person>
    var expanded: set<string>
    var familyGroups: map<string, FamilyGroup>

    constructor (hofs: seq<Person>)
      ensures hofList == hofs && expanded == {} && familyGroups == map[]
    {
      hofList := hofs;
      expanded := {};
      familyGroups := map[];
    }

    /** `toggleFamilyExpansion`: flips `h` in the expanded set; `load` tells whether the
        details of a newly expanded family are to be fetched. */
    method ToggleFamilyExpansion(h: string) returns (load: bool)
      modifies this
      ensures expanded == Toggled(old(expanded), h)
      ensures load <==> h !in old(expanded) && h !in familyGroups
      ensures hofList == old(hofList) && familyGroups == old(familyGroups)
    {
      var next := expanded;
      load := false;
      if h in next {
        next := next - {h};
      } else {
        next := next + {h};
        if h !in familyGroups {
          load := true;
        }
      }
      expanded := next;
    }

    /** `loadFamilyDetails`, given the two answers: `family` is `None` when the family request
        failed, and then nothing changes; a failed accommodation request gives an empty list. */
    method LoadFamilyDetails(h: string, family: Option<seq<Person>>, accommodations: Option<seq<Row>>)
      modifies this
      ensures family.None? ==> familyGroups == old(familyGroups)
      ensures family.Some? ==> familyGroups == old(familyGroups)[h := FamilyGroup(
        HofFor(hofList, h), family.value, if accommodations.Some? then accommodations.value else [])]
      ensures hofList == old(hofList) && expanded == old(expanded)
    {
      if family.Some? {
        var hof := HofFor(hofList, h);
        var accs := if accommodations.Some? then accommodations.value else [];
        familyGroups := familyGroups[h := FamilyGroup(hof, family.value, accs)];
      }
    }
  }
}

/**
 * The "Save Design" dialog (`SaveDesign.jsx`): designs are kept per
 * category in the browser's storage under the key `designs_{category}`, as
 * a list in which a name is looked up to replace an existing design. The
 * storage is a map from key to the stored list (the JSON text round trip is
 * not modelled); `window.confirm` and the clock are parameters.
 */
module SaveDesignDialog {
  import opened Js

  /** What a save records besides the name. */
  datatype DesignContent = DesignContent(
    timestamp: string, gridType: string, dropZones: JsValue,
    frameColor: Option<string>, fullColor: Option<string>, wallColor: Option<string>)

  datatype SavedDesign = SavedDesign(name: string, content: DesignContent)

  /** The browser's storage, restricted to the design lists it holds. */
  type Storage = map<string, seq<SavedDesign>>

  /** `designs_${category}`. */
  function StorageKey(category: string): (k: string)
    ensures StartsWith(k, "designs_") && k[|"designs_"|..] == category
  {
    "designs_" + category
  }

  /** Different categories use different keys. */
  lemma StorageKeyInjective(a: string, b: string)
    requires StorageKey(a) == StorageKey(b)
    ensures a == b
  {
    assert a == StorageKey(a)[8..];
  }

  /** `stored ? JSON.parse(stored) : []`. */
  function Load(storage: Storage, category: string): (designs: seq<SavedDesign>)
    ensures StorageKey(category) !in storage ==> designs == []
  {
    if StorageKey(category) in storage then storage[StorageKey(category)] else []
  }

  /** `!name.trim()`: the name has no character other than whitespace. */
  predicate Blank(name: string) {
    TrimStart(name) == ""
  }

  /** A name is blank exactly when every character is whitespace. */
  lemma {:induction false} BlankIff(name: string)
    ensures Blank(name) <==> forall i :: 0 <= i < |name| ==> IsSpace(name[i])
    decreases |name|
  {
    if |name| > 0 {
      BlankIff(name[1..]);
      if IsSpace(name[0]) {
        forall i | 0 < i < |name| ensures name[i] == name[1..][i - 1] { }
      }
    }
  }

  /** `designs.findIndex(d => d.name === name)`, with -1 as `None`. */
  function FindName(designs: seq<SavedDesign>, name: string): (r: Option<nat>)
    ensures r.Some? ==> r.value < |designs| && designs[r.value].name == name
    ensures r.Some? ==> forall j :: 0 <= j < r.value ==> designs[j].name != name
    ensures r.None? <==> forall j :: 0 <= j < |designs| ==> designs[j].name != name
    decreases |designs|
  {
    if |designs| == 0 then None
    else if designs[0].name == name then Some(0)
    else match FindName(designs[1..], name)
      case None => None
      case Some(k) => Some(k + 1)
  }

  /** The list a save writes: the design replaces the one with its name when the user confirms, or is appended; `None` when the user declines. */
  function Upsert(designs: seq<SavedDesign>, design: SavedDesign, confirmed: bool): Option<seq<SavedDesign>> {
    match FindName(designs, design.name)
    case Some(i) => if confirmed then Some(designs[i := design]) else None
    case None => Some(designs + [design])
  }

  /** `savedDesigns.filter(d => d.name !== name)`. */
  function WithoutName(designs: seq<SavedDesign>, name: string): seq<SavedDesign> {
    Filter(designs, (d: SavedDesign) => d.name != name)
  }

  /** No two designs of a list share a name. */
  predicate UniqueNames(designs: seq<SavedDesign>) {
    forall i, j :: 0 <= i < j < |designs| ==> designs[i].name != designs[j].name
  }

  /** The first design with the name is replaced at its own index once confirmed; a declined replace writes nothing. */
  lemma UpsertExisting(designs: seq<SavedDesign>, design: SavedDesign, confirmed: bool, i: nat)
    requires i < |designs| && designs[i].name == design.name
    requires forall j :: 0 <= j < i ==> designs[j].name != design.name
    ensures confirmed ==> Upsert(designs, design, confirmed) == Some(designs[i := design])
    ensures !confirmed ==> Upsert(designs, design, confirmed).None?
  {
  }

  /** A new name is appended at the end. */
  lemma UpsertNew(designs: seq<SavedDesign>, design: SavedDesign, confirmed: bool)
    requires forall j :: 0 <= j < |designs| ==> designs[j].name != design.name
    ensures Upsert(designs, design, confirmed) == Some(designs + [design])
  {
  }

  /** A save keeps names unique, and the saved design is the one found under its name. */
  lemma UpsertKeepsUnique(designs: seq<SavedDesign>, design: SavedDesign, confirmed: bool)
    requires UniqueNames(designs)
    requires Upsert(designs, design, confirmed).Some?
    ensures var r := Upsert(designs, design, confirmed).value;
            && UniqueNames(r)
            && FindName(r, design.name).Some? && r[FindName(r, design.name).value] == design
  {
    var r := Upsert(designs, design, confirmed).value;
    var i := if FindName(designs, design.name).Some? then FindName(designs, design.name).value else |designs|;
    assert i < |r| && r[i] == design;
    assert forall j :: 0 <= j < |r| && j != i ==> r[j] == designs[j];
    FoundAt(r, design.name, i);
  }

  /** In a list whose only entry with a name is at `i`, the name is found at `i`. */
  lemma FoundAt(designs: seq<SavedDesign>, name: string, i: nat)
    requires i < |designs| && designs[i].name == name
    requires forall j :: 0 <= j < |designs| && j != i ==> designs[j].name != name
    ensures FindName(designs, name) == Some(i)
  {
  }

  /** Deleting removes every design with the name and keeps the others in order. */
  lemma WithoutNameExact(designs: seq<SavedDesign>, name: string)
    ensures var r := WithoutName(designs, name);
            && (forall d :: d in r <==> d in designs && d.name != name)
            && (forall d :: multiset(r)[d] == if d.name != name then multiset(designs)[d] else 0)
            && IsSubsequence(r, designs)
            && FindName(r, name).None?
  {
    var r := WithoutName(designs, name);
    FilterIsSubsequence(designs, (d: SavedDesign) => d.name != name);
    FilterCounts(designs, (d: SavedDesign) => d.name != name);
    assert forall j :: 0 <= j < |r| ==> r[j] in r;
  }

  /** How a press of "Save" ended. */
  datatype SaveOutcome = NameRequired | Declined | Saved

  class Dialog {
    var category: string
    var designName: string
    var savedDesigns: seq<SavedDesign>
    var deleteConfirm: Option<string>
    /** The browser's storage, shared with the rest of the page. */
    var storage: Storage

    /** The dialog opens on category `2-8` with an empty name and loads that category's list. */
    constructor (storage0: Storage)
      ensures category == "2-8" && designName == "" && deleteConfirm.None?
      ensures storage == storage0 && savedDesigns == Load(storage0, "2-8")
    {
      category := "2-8";
      designName := "";
      deleteConfirm := None;
      storage := storage0;
      savedDesigns := Load(storage0, "2-8");
    }

    /** `loadDesigns`, run whenever the category changes. */
    method SelectCategory(c: string)
      modifies this
      ensures category == c && savedDesigns == Load(storage, c)
      ensures storage == old(storage) && designName == old(designName) && deleteConfirm == old(deleteConfirm)
    {
      category := c;
      savedDesigns := Load(storage, c);
    }

    /**
     * `saveDesign`: a blank name is refused and nothing changes; a name
     * already in the stored list is replaced only when the user confirms
     * (declining changes nothing); otherwise the design is appended. A save
     * writes only this category's key, shows the new list and clears the
     * name field.
     */
    method SaveDesign(content: DesignContent, confirmed: bool) returns (outcome: SaveOutcome)
      modifies this
      ensures old(Blank(designName)) ==> outcome == NameRequired
      ensures outcome == NameRequired <==> old(Blank(designName))
      ensures outcome != Saved ==> storage == old(storage) && savedDesigns == old(savedDesigns) && designName == old(designName)
      ensures var r := Upsert(old(Load(storage, category)), SavedDesign(old(designName), content), confirmed);
              && (outcome == Declined <==> !old(Blank(designName)) && r.None?)
              && (outcome == Saved ==> r.Some? && storage == old(storage)[StorageKey(category) := r.value]
                                       && savedDesigns == r.value && designName == "")
      ensures category == old(category) && deleteConfirm == old(deleteConfirm)
    {
      if TrimStart(designName) == "" {
        return NameRequired;
      }
      var designData := SavedDesign(designName, content);
      var designs := [];
      if StorageKey(category) in storage {
        designs := storage[StorageKey(category)];
      }
      var existingIndex := FindName(designs, designName);
      if existingIndex.Some? {
        if confirmed {
          designs := designs[existingIndex.value := designData];
        } else {
          return Declined;
        }
      } else {
        designs := designs + [designData];
      }
      storage := storage[StorageKey(category) := designs];
      savedDesigns := designs;
      designName := "";
      outcome := Saved;
    }

    /** `deleteDesign`: the shown list without that name is written back, or the key is removed when nothing remains. */
    method DeleteDesign(name: string)
      modifies this
      ensures var r := WithoutName(old(savedDesigns), name);
              && savedDesigns == r
              && (|r| > 0 ==> storage == old(storage)[StorageKey(category) := r])
              && (|r| == 0 ==> storage == old(storage) - {StorageKey(category)})
      ensures deleteConfirm.None? && category == old(category) && designName == old(designName)
    {
      var designs := Filter(savedDesigns, (d: SavedDesign) => d.name != name);
      if |designs| > 0 {
        storage := storage[StorageKey(category) := designs];
      } else {
        storage := storage - {StorageKey(category)};
      }
      savedDesigns := designs;
      deleteConfirm := None;
    }
  }

  /** A save or a delete leaves the lists of every other category as they were. */
  lemma OtherCategoriesUntouched(storage: Storage, category: string, other: string, designs: seq<SavedDesign>)
    requires other != category
    ensures Load(storage[StorageKey(category) := designs], other) == Load(storage, other)
    ensures Load(storage - {StorageKey(category)}, other) == Load(storage, other)
  {
    if StorageKey(other) == StorageKey(category) {
      StorageKeyInjective(other, category);
    }
  }

  /** After deleting the last design of a category its key is gone, and loading it gives the empty list. */
  lemma DeleteLastEmpties(storage: Storage, category: string)
    ensures StorageKey(category) !in storage - {StorageKey(category)}
    ensures Load(storage - {StorageKey(category)}, category) == []
  {
  }
}

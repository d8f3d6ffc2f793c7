/**
 * The design API server (`server.js`): a list of saved designs, each a JSON
 * object, kept in `designs.json` and served over four endpoints. Reading and
 * writing the file is modelled as a field that each handler reads and
 * reassigns; the clock readings behind `Date.now()` and `toISOString()` are
 * parameters.
 */
module DesignServer {
  import opened Js

  /** A stored design: the client's fields plus `id`, `createdAt` and `updatedAt`. */
  type Design = JsObject

  /** What identifies a design for an upsert: its `name` and `category`, each possibly absent. */
  function Key(d: Design): (Option<JsValue>, Option<JsValue>) {
    (Get(d, "name"), Get(d, "category"))
  }

  /** A query-string parameter: absent is `undefined`, present is a string. */
  function QueryValue(q: Option<string>): (v: Option<JsValue>)
    ensures v.None? <==> q.None?
  {
    if q.Some? then Some(JStr(q.value)) else None
  }

  /** `designs.findIndex(d => d.name === body.name && d.category === body.category)`, with -1 as `None`. */
  function FindIndex(designs: seq<Design>, body: Design): (r: Option<nat>)
    ensures r.Some? ==> r.value < |designs| && Key(designs[r.value]) == Key(body)
    ensures r.Some? ==> forall j :: 0 <= j < r.value ==> Key(designs[j]) != Key(body)
    ensures r.None? <==> forall j :: 0 <= j < |designs| ==> Key(designs[j]) != Key(body)
    decreases |designs|
  {
    if |designs| == 0 then None
    else if Key(designs[0]) == Key(body) then Some(0)
    else match FindIndex(designs[1..], body)
      case None => None
      case Some(k) => Some(k + 1)
  }

  /** `{ id, ...body, createdAt }`: a field `id` in the body overrides the generated one. */
  function NewDesign(body: Design, id: string, createdAt: string): (d: Design)
    ensures Get(d, "createdAt") == Some(JStr(createdAt))
    ensures "id" !in body ==> Get(d, "id") == Some(JStr(id))
    ensures forall k :: k in body && k != "createdAt" ==> k in d && d[k] == body[k]
    ensures Key(d) == Key(body)
  {
    map["id" := JStr(id)] + body + map["createdAt" := JStr(createdAt)]
  }

  /** `{ ...existing, ...body, updatedAt }`. */
  function Updated(existing: Design, body: Design, updatedAt: string): (d: Design)
    ensures Get(d, "updatedAt") == Some(JStr(updatedAt))
    ensures forall k :: k in body && k != "updatedAt" ==> k in d && d[k] == body[k]
    ensures forall k :: k in existing && k !in body && k != "updatedAt" ==> k in d && d[k] == existing[k]
  {
    existing + body + map["updatedAt" := JStr(updatedAt)]
  }

  /** The list after `POST /api/designs`: the design with the body's key is merged in place, or a new one is appended. */
  function Upsert(designs: seq<Design>, body: Design, id: string, now: string): seq<Design> {
    match FindIndex(designs, body)
    case Some(i) => designs[i := Updated(designs[i], body, now)]
    case None => designs + [NewDesign(body, id, now)]
  }

  /** The answer of `GET /api/designs`: the designs of a category, or all of them when no category is given. */
  function ByCategory(designs: seq<Design>, category: Option<string>): seq<Design> {
    if Truthy(category) then Filter(designs, (d: Design) => Get(d, "category") == Some(JStr(category.value)))
    else designs
  }

  /** The list after `DELETE /api/designs/:id`. */
  function WithoutId(designs: seq<Design>, id: string): seq<Design> {
    Filter(designs, (d: Design) => Get(d, "id") != Some(JStr(id)))
  }

  /** The list after `DELETE /api/designs?name=…&category=…`. */
  function WithoutKey(designs: seq<Design>, name: Option<string>, category: Option<string>): seq<Design> {
    Filter(designs, (d: Design) => Key(d) != (QueryValue(name), QueryValue(category)))
  }

  /** No two designs share a (name, category) key. */
  predicate Unique(designs: seq<Design>) {
    forall i, j :: 0 <= i < j < |designs| ==> Key(designs[i]) != Key(designs[j])
  }

  // ---------------------------------------------------------------------------
  // Properties of the handlers

  /** A category query answers exactly the designs of that category, in stored order. */
  lemma ByCategoryExact(designs: seq<Design>, category: string)
    requires category != ""
    ensures var r := ByCategory(designs, Some(category));
            && (forall d :: d in r <==> d in designs && Get(d, "category") == Some(JStr(category)))
            && (forall d :: multiset(r)[d] == if Get(d, "category") == Some(JStr(category)) then multiset(designs)[d] else 0)
            && IsSubsequence(r, designs)
  {
    FilterIsSubsequence(designs, (d: Design) => Get(d, "category") == Some(JStr(category)));
    FilterCounts(designs, (d: Design) => Get(d, "category") == Some(JStr(category)));
  }

  /** An existing key is merged in place: the length is unchanged, the merged design carries the body and `updatedAt`, and every other design is untouched. */
  lemma UpsertExisting(designs: seq<Design>, body: Design, id: string, now: string, i: nat)
    requires i < |designs| && Key(designs[i]) == Key(body)
    requires forall j :: 0 <= j < i ==> Key(designs[j]) != Key(body)
    ensures var r := Upsert(designs, body, id, now);
            && |r| == |designs|
            && Get(r[i], "updatedAt") == Some(JStr(now))
            && (forall k :: k in body && k != "updatedAt" ==> k in r[i] && r[i][k] == body[k])
            && (forall j :: 0 <= j < |designs| && j != i ==> r[j] == designs[j])
  {
  }

  /** A new key is appended at the end with the body's fields and `createdAt`. */
  lemma UpsertNew(designs: seq<Design>, body: Design, id: string, now: string)
    requires forall j :: 0 <= j < |designs| ==> Key(designs[j]) != Key(body)
    ensures var r := Upsert(designs, body, id, now);
            && |r| == |designs| + 1 && r[..|designs|] == designs
            && Get(r[|designs|], "createdAt") == Some(JStr(now))
            && ("id" !in body ==> Get(r[|designs|], "id") == Some(JStr(id)))
            && (forall k :: k in body && k != "createdAt" ==> k in r[|designs|] && r[|designs|][k] == body[k])
  {
  }

  /**
   * On the update path the merged design keeps its stored `id` (unless the
   * body brings one), so the `id` the handler answers does not name it.
   */
  lemma UpdateKeepsId(designs: seq<Design>, body: Design, id: string, now: string, i: nat)
    requires FindIndex(designs, body) == Some(i)
    requires "id" !in body && "id" in designs[i]
    ensures Upsert(designs, body, id, now)[i]["id"] == designs[i]["id"]
  {
  }

  /** After an upsert the body's key is found, and its design holds the body's fields. */
  lemma UpsertFindsBody(designs: seq<Design>, body: Design, id: string, now: string)
    ensures var r := Upsert(designs, body, id, now);
            FindIndex(r, body).Some? &&
            forall k :: k in body && k != "createdAt" && k != "updatedAt" ==>
              k in r[FindIndex(r, body).value] && r[FindIndex(r, body).value][k] == body[k]
  {
    var r := Upsert(designs, body, id, now);
    match FindIndex(designs, body)
    case Some(i) =>
      assert Key(r[i]) == Key(body) by {
        assert "name" in r[i] <==> "name" in designs[i] || "name" in body;
      }
      assert FindIndex(r, body) == Some(i) by {
        assert forall j :: 0 <= j < i ==> r[j] == designs[j];
      }
    case None =>
      assert Key(r[|designs|]) == Key(body);
      assert FindIndex(r, body) == Some(|designs|) by {
        assert forall j :: 0 <= j < |designs| ==> r[j] == designs[j];
      }
  }

  /** An upsert keeps keys unique. */
  lemma UpsertKeepsUnique(designs: seq<Design>, body: Design, id: string, now: string)
    requires Unique(designs)
    ensures Unique(Upsert(designs, body, id, now))
  {
    var r := Upsert(designs, body, id, now);
    match FindIndex(designs, body)
    case Some(i) =>
      assert Key(r[i]) == Key(designs[i]) by {
        assert "name" in r[i] <==> "name" in designs[i] || "name" in body;
      }
      forall j | 0 <= j < |r| ensures Key(r[j]) == Key(designs[j]) {
      }
    case None =>
      forall a, b | 0 <= a < b < |r| ensures Key(r[a]) != Key(r[b]) {
        if b == |designs| {
          assert Key(r[b]) == Key(body);
        }
      }
  }

  /** Deleting by id removes every design with that id and keeps the rest, in order. */
  lemma WithoutIdExact(designs: seq<Design>, id: string)
    ensures var r := WithoutId(designs, id);
            && (forall d :: d in r <==> d in designs && Get(d, "id") != Some(JStr(id)))
            && (forall d :: multiset(r)[d] == if Get(d, "id") != Some(JStr(id)) then multiset(designs)[d] else 0)
            && IsSubsequence(r, designs)
  {
    FilterIsSubsequence(designs, (d: Design) => Get(d, "id") != Some(JStr(id)));
    FilterCounts(designs, (d: Design) => Get(d, "id") != Some(JStr(id)));
  }

  /** Deleting by name and category removes exactly the designs matching both, keeps the rest in order, and a later save of that key appends. */
  lemma WithoutKeyExact(designs: seq<Design>, name: Option<string>, category: Option<string>, body: Design)
    requires Key(body) == (QueryValue(name), QueryValue(category))
    ensures var r := WithoutKey(designs, name, category);
            && (forall d :: d in r <==> d in designs && Key(d) != Key(body))
            && (forall d :: multiset(r)[d] == if Key(d) != Key(body) then multiset(designs)[d] else 0)
            && IsSubsequence(r, designs)
            && FindIndex(r, body).None?
  {
    var r := WithoutKey(designs, name, category);
    FilterIsSubsequence(designs, (d: Design) => Key(d) != (QueryValue(name), QueryValue(category)));
    FilterCounts(designs, (d: Design) => Key(d) != (QueryValue(name), QueryValue(category)));
    assert forall j :: 0 <= j < |r| ==> r[j] in r;
  }

  // ---------------------------------------------------------------------------
  // The server state

  class DesignStore {
    /** The `designs` array of `designs.json`. */
    var designs: seq<Design>

    /** A missing file is created holding `{ designs: [] }`. */
    constructor ()
      ensures designs == []
    {
      designs := [];
    }

    /** `GET /api/designs[?category=…]`. */
    method GetDesigns(category: Option<string>) returns (r: seq<Design>)
      ensures r == ByCategory(designs, category)
      ensures Truthy(category) ==> forall d :: d in r <==> d in designs && Get(d, "category") == Some(JStr(category.value))
      ensures !Truthy(category) ==> r == designs
    {
      if Truthy(category) {
        r := Filter(designs, (d: Design) => Get(d, "category") == Some(JStr(category.value)));
        ByCategoryExact(designs, category.value);
      } else {
        r := designs;
      }
    }

    /**
     * `POST /api/designs`: the answer's `id` is `Date.now().toString()`
     * whether the design was merged or appended.
     */
    method SaveDesign(body: Design, nowMs: nat, now: string) returns (id: string)
      modifies this
      ensures id == NatToString(nowMs)
      ensures designs == Upsert(old(designs), body, id, now)
    {
      id := NatToString(nowMs);
      var design := map["id" := JStr(id)] + body + map["createdAt" := JStr(now)];
      var existingIndex := FindIndex(designs, body);
      if existingIndex.Some? {
        var i := existingIndex.value;
        designs := designs[i := designs[i] + body + map["updatedAt" := JStr(now)]];
      } else {
        designs := designs + [design];
      }
    }

    /** `DELETE /api/designs/:id`. */
    method DeleteDesign(id: string)
      modifies this
      ensures designs == WithoutId(old(designs), id)
    {
      designs := Filter(designs, (d: Design) => Get(d, "id") != Some(JStr(id)));
    }

    /** `DELETE /api/designs?name=…&category=…`. */
    method DeleteByKey(name: Option<string>, category: Option<string>)
      modifies this
      ensures designs == WithoutKey(old(designs), name, category)
    {
      designs := Filter(designs, (d: Design) => Key(d) != (QueryValue(name), QueryValue(category)));
    }
  }
}

/**
  The persistence collaborator both repositories talk to, reduced to a pure
  value: a table is the list of its items in scan order, each item a map
  from attribute name to value, keyed by the string attribute "pkey".
  The operations are the four requests the repositories issue: get by key,
  scan with an equality filter, put (insert or replace) and update (set the
  listed attributes, creating the item when the key is new).
 */
module Store {
  import opened JsValues
  import opened Options
  import opened UpdateRequests

  type Item = map<string, JsValue>

  type Table = seq<Item>

  const KeyAttribute: string := "pkey"

  predicate HasKey(item: Item, key: string)
  {
    KeyAttribute in item && item[KeyAttribute] == Str(key)
  }

  /** A get by key: the first item carrying `key`, if any. */
  function Find(t: Table, key: string): (r: Option<Item>)
    ensures r.Some? <==> exists i :: 0 <= i < |t| && HasKey(t[i], key)
    ensures r.Some? ==> HasKey(r.value, key) && r.value in t
  {
    if |t| == 0 then None
    else if HasKey(t[0], key) then Some(t[0])
    else Find(t[1..], key)
  }

  /** A scan with the filter `#attribute = :value`, keeping scan order. */
  function Where(t: Table, attribute: string, value: JsValue): (r: Table)
    ensures |r| <= |t|
    ensures forall x :: x in r ==> x in t && attribute in x && x[attribute] == value
    ensures forall x :: x in t && attribute in x && x[attribute] == value ==> x in r
  {
    if |t| == 0 then []
    else
      var rest := Where(t[1..], attribute, value);
      if attribute in t[0] && t[0][attribute] == value then [t[0]] + rest else rest
  }

  /** The store accepts an item only under a non-empty string key. */
  predicate Storable(item: Item)
  {
    KeyAttribute in item && item[KeyAttribute].Str? && item[KeyAttribute].s != ""
  }

  /** A put: replace the item with the same key, or add the item at the end. */
  function Put(t: Table, item: Item): (r: Table)
    requires Storable(item)
    ensures Find(r, item[KeyAttribute].s) == Some(item)
    ensures forall k :: k != item[KeyAttribute].s ==> Find(r, k) == Find(t, k)
    ensures forall x :: x in r ==> x == item || x in t
  {
    if |t| == 0 then [item]
    else if HasKey(t[0], item[KeyAttribute].s) then [item] + t[1..]
    else [t[0]] + Put(t[1..], item)
  }

  /** Setting each listed attribute in turn; a later edit of the same attribute overrides an earlier one. */
  function ApplyEdits(item: Item, edits: seq<Edit>): (r: Item)
    ensures forall a :: a in item ==> a in r
    ensures forall a :: a in item && !Targets(edits, a) ==> r[a] == item[a]
    decreases |edits|
  {
    if |edits| == 0 then item
    else
      var last := edits[|edits| - 1];
      ApplyEdits(item, edits[..|edits| - 1])[last.property := last.value]
  }

  /** No attribute is the target of two edits. */
  predicate DistinctTargets(edits: seq<Edit>)
  {
    forall i, j :: 0 <= i < j < |edits| ==> edits[i].property != edits[j].property
  }

  /** With distinct targets, every edited attribute ends up holding its edit's value. */
  lemma {:induction false} ApplyEditsSets(item: Item, edits: seq<Edit>, i: int)
    requires DistinctTargets(edits)
    requires 0 <= i < |edits|
    ensures edits[i].property in ApplyEdits(item, edits)
    ensures ApplyEdits(item, edits)[edits[i].property] == edits[i].value
    decreases |edits|
  {
    var n := |edits|;
    if i < n - 1 {
      var prefix := edits[..n - 1];
      assert prefix[i] == edits[i];
      assert DistinctTargets(prefix) by {
        forall a, b | 0 <= a < b < |prefix|
          ensures prefix[a].property != prefix[b].property
        {
          assert prefix[a] == edits[a] && prefix[b] == edits[b];
        }
      }
      ApplyEditsSets(item, prefix, i);
    }
  }

  /**
    The store refuses an update with no clause, one that sets the key
    attribute, and one whose clauses overlap on the same attribute.
   */
  predicate UpdateRefused(edits: seq<Edit>)
  {
    |edits| == 0 || Targets(edits, KeyAttribute) || !DistinctTargets(edits)
  }

  /**
    An update of the item under `key`, answering the item as it is after the
    write; an item that did not exist is created with just its key first.
   */
  function UpdateItem(t: Table, key: string, edits: seq<Edit>): (r: Option<(Table, Item)>)
    ensures r.None? <==> UpdateRefused(edits) || key == ""
    ensures r.Some? ==> HasKey(r.value.1, key) && Find(r.value.0, key) == Some(r.value.1)
    ensures r.Some? ==> forall k :: k != key ==> Find(r.value.0, k) == Find(t, k)
    ensures r.Some? && Find(t, key).Some? ==>
              forall a :: a in Find(t, key).value && !Targets(edits, a) ==>
                a in r.value.1 && r.value.1[a] == Find(t, key).value[a]
  {
    if UpdateRefused(edits) || key == "" then None
    else
      var base := match Find(t, key) case Some(item) => item case None => map[KeyAttribute := Str(key)];
      var updated := ApplyEdits(base, edits);
      assert updated[KeyAttribute] == base[KeyAttribute];
      Some((Put(t, updated), updated))
  }

  /** After an accepted update, every edited attribute holds exactly its edit's value. */
  lemma UpdateItemSets(t: Table, key: string, edits: seq<Edit>, i: int)
    requires UpdateItem(t, key, edits).Some?
    requires 0 <= i < |edits|
    ensures edits[i].property in UpdateItem(t, key, edits).value.1
    ensures UpdateItem(t, key, edits).value.1[edits[i].property] == edits[i].value
  {
    var base := match Find(t, key) case Some(item) => item case None => map[KeyAttribute := Str(key)];
    ApplyEditsSets(base, edits, i);
  }

  /** A delete by key: every item carrying `key` leaves the table; the rest keep their order. */
  function Remove(t: Table, key: string): (r: Table)
    ensures Find(r, key).None?
    ensures forall k :: k != key ==> Find(r, k) == Find(t, k)
    ensures forall x :: x in r <==> x in t && !HasKey(x, key)
  {
    if |t| == 0 then []
    else if HasKey(t[0], key) then Remove(t[1..], key)
    else [t[0]] + Remove(t[1..], key)
  }
}

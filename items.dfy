/** The registry's record type and the first-match lookup that search and delete share. */
module Items {

  datatype Option<T> = None | Some(value: T)

  /** One registered item: what it is, what it looks like, whom to contact. */
  datatype Item = Item(name: string, description: string, contactInfo: string)

  /** The least index whose item has exactly this name, or None when no item has it. */
  function FirstIndex(items: seq<Item>, name: string): (r: Option<nat>)
    ensures r.Some? ==> r.value < |items| && items[r.value].name == name
    ensures r.Some? ==> forall j :: 0 <= j < r.value ==> items[j].name != name
    ensures r.None? <==> forall j :: 0 <= j < |items| ==> items[j].name != name
  {
    if items == [] then None
    else if items[0].name == name then Some(0)
    else
      match FirstIndex(items[1..], name)
      case None => None
      case Some(k) => Some(k + 1)
  }

  /**
   * The store after the item at index k is erased: one shorter, the items
   * before k where they were, the items after it moved down by one.
   */
  function RemoveAt(items: seq<Item>, k: nat): (r: seq<Item>)
    requires k < |items|
    ensures |r| == |items| - 1
    ensures r[..k] == items[..k]
    ensures r[k..] == items[k + 1..]
  {
    items[..k] + items[k + 1..]
  }

  /**
   * Erasing one entry keeps every other item in order: those before k where
   * they were, those after it moved down by one; only that one item goes.
   */
  lemma RemoveAtKeepsOthers(items: seq<Item>, k: nat)
    requires k < |items|
    ensures forall j :: 0 <= j < k ==> RemoveAt(items, k)[j] == items[j]
    ensures forall j :: k <= j < |items| - 1 ==> RemoveAt(items, k)[j] == items[j + 1]
    ensures multiset(RemoveAt(items, k)) + multiset{items[k]} == multiset(items)
  {
    assert items == items[..k] + [items[k]] + items[k + 1..];
  }

  /**
   * After an append, a search for the new item's name succeeds: it finds an
   * earlier item of that name if there is one, and the new item otherwise.
   */
  lemma {:induction false} AddThenSearch(items: seq<Item>, x: Item)
    ensures FirstIndex(items + [x], x.name).Some?
    ensures FirstIndex(items + [x], x.name) ==
            if FirstIndex(items, x.name).Some? then FirstIndex(items, x.name) else Some(|items|)
  {
    var s := items + [x];
    assert s[|items|].name == x.name;
    match FirstIndex(items, x.name)
    case None =>
      assert forall j :: 0 <= j < |items| ==> s[j] == items[j];
    case Some(k) =>
      assert s[k] == items[k];
      assert forall j :: 0 <= j < k ==> s[j] == items[j];
  }

  /** Items in front that lack the name shift a later match by their count. */
  lemma FirstIndexAfter(front: seq<Item>, back: seq<Item>, name: string)
    requires FirstIndex(front, name).None?
    ensures FirstIndex(front + back, name) ==
            match FirstIndex(back, name)
            case None => None
            case Some(j) => Some(|front| + j)
  {
    var s := front + back;
    match FirstIndex(back, name)
    case None =>
      forall j | 0 <= j < |s| ensures s[j].name != name {
        if j < |front| {
          assert s[j] == front[j];
        } else {
          assert s[j] == back[j - |front|];
        }
      }
    case Some(m) =>
      assert s[|front| + m] == back[m];
      forall j | 0 <= j < |front| + m ensures s[j].name != name {
        if j < |front| {
          assert s[j] == front[j];
        } else {
          assert s[j] == back[j - |front|];
        }
      }
  }

  /**
   * Deleting the first match leaves later duplicates in place: the next search
   * for the same name finds what was the second item of that name.
   */
  lemma DeleteThenSearch(items: seq<Item>, name: string)
    requires FirstIndex(items, name).Some?
    ensures var k := FirstIndex(items, name).value;
            FirstIndex(RemoveAt(items, k), name) ==
            match FirstIndex(items[k + 1..], name)
            case None => None
            case Some(j) => Some(k + j)
  {
    var k := FirstIndex(items, name).value;
    var front := items[..k];
    assert FirstIndex(front, name).None? by {
      forall j | 0 <= j < |front| ensures front[j].name != name {
        assert front[j] == items[j];
      }
    }
    FirstIndexAfter(front, items[k + 1..], name);
  }
}

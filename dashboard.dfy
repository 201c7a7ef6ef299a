/** The dashboard page: the list of learning items it owns, the filtered view
    it derives from that list, the list updates it applies after a successful
    server reply, and the page state its handlers change. */
module Dashboard {
  import opened Items
  import opened Text

  // ---------------------------------------------------------------------
  // The filtered view

  /** The search test of one item is defined: `||` stops at the first match,
      so `item.notes.toLowerCase()` is evaluated, and needs `notes` to be a
      string, only when neither the title nor the type matches. */
  predicate SearchDefined(item: LearningItem, searchTerm: string) {
    var q := ToLower(searchTerm);
    || Includes(ToLower(item.title), q)
    || Includes(ToLower(item.itemType), q)
    || item.notes.Some?
  }

  predicate FilterDefined(items: seq<LearningItem>, searchTerm: string) {
    forall x :: x in items ==> SearchDefined(x, searchTerm)
  }

  /** `matchesSearch`: the lower-cased search term occurs in the lower-cased
      title, type or notes. */
  predicate MatchesSearch(item: LearningItem, searchTerm: string)
    requires SearchDefined(item, searchTerm)
  {
    var q := ToLower(searchTerm);
    || Includes(ToLower(item.title), q)
    || Includes(ToLower(item.itemType), q)
    || Includes(ToLower(item.notes.value), q)
  }

  /** The predicate the view keeps an item by: the search test, and the
      status and type filters, each of which `ALL` switches off. */
  predicate Matches(item: LearningItem, searchTerm: string, statusFilter: string, typeFilter: string)
    requires SearchDefined(item, searchTerm)
  {
    && MatchesSearch(item, searchTerm)
    && (statusFilter == ALL || item.status == statusFilter)
    && (typeFilter == ALL || item.itemType == typeFilter)
  }

  /** `filteredItems`: the items that match, in their order in the list,
      each as often as it occurs there. */
  function Filter(items: seq<LearningItem>, searchTerm: string, statusFilter: string, typeFilter: string)
    : (r: seq<LearningItem>)
    requires FilterDefined(items, searchTerm)
    ensures IsSubsequence(r, items)
    ensures forall x :: x in r ==> x in items && Matches(x, searchTerm, statusFilter, typeFilter)
    ensures forall x :: x in items && Matches(x, searchTerm, statusFilter, typeFilter) ==>
              multiset(r)[x] == multiset(items)[x]
    ensures statusFilter != ALL ==> forall x :: x in r ==> x.status == statusFilter
    ensures typeFilter != ALL ==> forall x :: x in r ==> x.itemType == typeFilter
  {
    if items == [] then []
    else
      var rest := Filter(items[1..], searchTerm, statusFilter, typeFilter);
      assert items == [items[0]] + items[1..];
      if Matches(items[0], searchTerm, statusFilter, typeFilter) then [items[0]] + rest else rest
  }

  /** Filtering the filtered list again with the same settings changes nothing. */
  lemma {:induction false} FilterIdempotent(items: seq<LearningItem>, searchTerm: string, statusFilter: string, typeFilter: string)
    requires FilterDefined(items, searchTerm)
    ensures FilterDefined(Filter(items, searchTerm, statusFilter, typeFilter), searchTerm)
    ensures Filter(Filter(items, searchTerm, statusFilter, typeFilter), searchTerm, statusFilter, typeFilter)
            == Filter(items, searchTerm, statusFilter, typeFilter)
  {
    if items != [] {
      assert FilterDefined(items[1..], searchTerm);
      FilterIdempotent(items[1..], searchTerm, statusFilter, typeFilter);
    }
  }

  /** With an empty search term and both filters at `ALL` the view is the
      whole list: every string includes the empty string, so no item's notes
      are even looked at. */
  lemma {:induction false} FilterDefaultsKeepAll(items: seq<LearningItem>)
    ensures FilterDefined(items, "")
    ensures Filter(items, "", ALL, ALL) == items
  {
    assert ToLower("") == [];
    if items != [] {
      FilterDefaultsKeepAll(items[1..]);
    }
  }

  // ---------------------------------------------------------------------
  // List updates applied after a successful reply

  /** Delete: `learningItems.filter(item => item._id !== itemId)` */
  function RemoveById(items: seq<LearningItem>, id: string): (r: seq<LearningItem>)
    ensures IsSubsequence(r, items)
    ensures forall x :: x in r <==> x in items && x.id != id
    ensures |r| == |items| - CountBy(items, Id, id)
  {
    if items == [] then []
    else if items[0].id != id then [items[0]] + RemoveById(items[1..], id)
    else RemoveById(items[1..], id)
  }

  /** Edit and quick status update: `learningItems.map(item => item._id ===
      id ? reply : item)` */
  function ReplaceById(items: seq<LearningItem>, id: string, reply: LearningItem): (r: seq<LearningItem>)
    ensures |r| == |items|
    ensures forall i :: 0 <= i < |items| ==> r[i] == (if items[i].id == id then reply else items[i])
  {
    if items == [] then []
    else [if items[0].id == id then reply else items[0]] + ReplaceById(items[1..], id, reply)
  }

  /** Create: `[reply, ...learningItems]` */
  function Prepend(items: seq<LearningItem>, reply: LearningItem): (r: seq<LearningItem>)
    ensures |r| == |items| + 1 && r[0] == reply && r[1..] == items
  {
    [reply] + items
  }

  /** With unique ids, deleting removes one item when the id is present and
      none otherwise, and the ids stay unique. */
  lemma RemoveWithUniqueIds(items: seq<LearningItem>, id: string)
    requires UniqueIds(items)
    ensures |RemoveById(items, id)| == |items| - (if exists i :: 0 <= i < |items| && items[i].id == id then 1 else 0)
    ensures UniqueIds(RemoveById(items, id))
  {
    UniqueIdsCountAtMostOne(items, id);
    CountByExtremes(items, Id, id);
    SubsequenceKeepsUniqueIds(RemoveById(items, id), items);
  }

  /** Deleting an id that no item has leaves the list as it was. */
  lemma {:induction false} RemoveAbsentId(items: seq<LearningItem>, id: string)
    requires forall i :: 0 <= i < |items| ==> items[i].id != id
    ensures RemoveById(items, id) == items
  {
    if items != [] {
      assert forall i :: 0 <= i < |items[1..]| ==> items[1..][i] == items[i + 1];
      RemoveAbsentId(items[1..], id);
    }
  }

  /** Create and delete are inverse: deleting the id of a freshly created
      record gives back the list it was created into. */
  lemma CreateThenDelete(items: seq<LearningItem>, reply: LearningItem)
    requires forall i :: 0 <= i < |items| ==> items[i].id != reply.id
    ensures RemoveById(Prepend(items, reply), reply.id) == items
  {
    assert Prepend(items, reply)[1..] == items;
    RemoveAbsentId(items, reply.id);
  }

  /** Creating a record whose id is new keeps the ids unique. */
  lemma CreateKeepsUniqueIds(items: seq<LearningItem>, reply: LearningItem)
    requires UniqueIds(items)
    requires forall i :: 0 <= i < |items| ==> items[i].id != reply.id
    ensures UniqueIds(Prepend(items, reply))
  {
  }

  /** With unique ids, replacing by the id of the item at `k` with a reply
      that carries the same id changes that position only, keeps the ids
      unique, and replacing again with the old item restores the list. */
  lemma ReplaceWithUniqueIds(items: seq<LearningItem>, k: nat, reply: LearningItem)
    requires UniqueIds(items)
    requires k < |items| && reply.id == items[k].id
    ensures ReplaceById(items, items[k].id, reply) == items[k := reply]
    ensures UniqueIds(ReplaceById(items, items[k].id, reply))
    ensures ReplaceById(ReplaceById(items, items[k].id, reply), items[k].id, items[k]) == items
  {
    var r := ReplaceById(items, items[k].id, reply);
    assert r == items[k := reply];
    var back := ReplaceById(r, items[k].id, items[k]);
    assert back == items;
  }

  /** Replacing by an id that no item has leaves the list as it was. */
  lemma ReplaceAbsentId(items: seq<LearningItem>, id: string, reply: LearningItem)
    requires forall i :: 0 <= i < |items| ==> items[i].id != id
    ensures ReplaceById(items, id, reply) == items
  {
  }

  /** A quick status update whose reply is the old record with the new
      status changes that one field of that one item and nothing else. */
  lemma StatusUpdateChangesOnlyStatus(items: seq<LearningItem>, k: nat, newStatus: string)
    requires UniqueIds(items) && k < |items|
    ensures var r := ReplaceById(items, items[k].id, items[k].(status := newStatus));
      && |r| == |items|
      && (forall j :: 0 <= j < |items| && j != k ==> r[j] == items[j])
      && r[k].status == newStatus
      && r[k].id == items[k].id && r[k].title == items[k].title && r[k].itemType == items[k].itemType
      && r[k].link == items[k].link && r[k].notes == items[k].notes
  {
    ReplaceWithUniqueIds(items, k, items[k].(status := newStatus));
  }

  // ---------------------------------------------------------------------
  // The page state

  class DashboardState {
    var learningItems: seq<LearningItem>
    var loading: bool
    var searchTerm: string
    var statusFilter: string
    var typeFilter: string
    var isModalOpen: bool
    var editingItem: Option<LearningItem>

    /** The initial `useState` values. */
    constructor ()
      ensures learningItems == [] && loading
      ensures searchTerm == "" && statusFilter == ALL && typeFilter == ALL
      ensures !isModalOpen && editingItem == None
    {
      learningItems := [];
      loading := true;
      searchTerm := "";
      statusFilter := ALL;
      typeFilter := ALL;
      isModalOpen := false;
      editingItem := None;
    }

    /** The list the page shows: items of the list, in order, each matching
        the current search and filters. */
    function FilteredItems(): (r: seq<LearningItem>)
      reads this
      requires FilterDefined(learningItems, searchTerm)
      ensures IsSubsequence(r, learningItems)
      ensures forall x :: x in r ==> x in learningItems && Matches(x, searchTerm, statusFilter, typeFilter)
    {
      Filter(learningItems, searchTerm, statusFilter, typeFilter)
    }

    /** The "(filtered)" note: some filter is away from its default; an
      empty search term is falsy. */
    predicate IsFiltered()
      reads this
    {
      statusFilter != ALL || typeFilter != ALL || searchTerm != ""
    }

    /** When no filter is set the page shows the whole list, in order. */
    lemma UnfilteredShowsAll()
      ensures !IsFiltered() ==> FilterDefined(learningItems, searchTerm) && FilteredItems() == learningItems
    {
      FilterDefaultsKeepAll(learningItems);
    }

    /** `fetchLearningItems`, with the server's reply (`None` when the
        request fails) as input: loading ends either way. */
    method FetchLearningItems(response: Option<seq<LearningItem>>)
      modifies this`learningItems, this`loading
      ensures learningItems == (if response.Some? then response.value else old(learningItems))
      ensures !loading
    {
      if response.Some? {
        learningItems := response.value;
      }
      loading := false;
    }

    /** `handleCreateItem`: the editor opens on no item. */
    method HandleCreateItem()
      modifies this`editingItem, this`isModalOpen
      ensures editingItem == None && isModalOpen
    {
      editingItem := None;
      isModalOpen := true;
    }

    /** `handleEditItem`: the editor opens on `item`. */
    method HandleEditItem(item: LearningItem)
      modifies this`editingItem, this`isModalOpen
      ensures editingItem == Some(item) && isModalOpen
    {
      editingItem := Some(item);
      isModalOpen := true;
    }

    /** The editor's `onClose`. */
    method CloseModal()
      modifies this`isModalOpen
      ensures !isModalOpen
    {
      isModalOpen := false;
    }

    /** `handleDeleteItem`: the user's answer to the confirmation and whether
        the server accepted the delete are inputs; only both together change
        the list. */
    method HandleDeleteItem(itemId: string, confirmed: bool, succeeded: bool)
      modifies this`learningItems
      ensures learningItems == (if confirmed && succeeded then RemoveById(old(learningItems), itemId)
                                else old(learningItems))
    {
      if confirmed && succeeded {
        learningItems := RemoveById(learningItems, itemId);
      }
    }

    /** `handleSaveItem`, with the server's reply (`None` when the request
        fails) as input: on success the list is updated, by id when editing
        and at the front when creating, and the editor closes; on failure
        neither the list nor the editor changes. */
    method HandleSaveItem(response: Option<LearningItem>)
      modifies this`learningItems, this`isModalOpen
      ensures response.None? ==> learningItems == old(learningItems) && isModalOpen == old(isModalOpen)
      ensures response.Some? && editingItem.Some? ==>
                learningItems == ReplaceById(old(learningItems), editingItem.value.id, response.value)
      ensures response.Some? && editingItem.None? ==> learningItems == Prepend(old(learningItems), response.value)
      ensures response.Some? ==> !isModalOpen
    {
      if response.Some? {
        if editingItem.Some? {
          learningItems := ReplaceById(learningItems, editingItem.value.id, response.value);
        } else {
          learningItems := Prepend(learningItems, response.value);
        }
        isModalOpen := false;
      }
    }

    /** `handleStatusUpdate`, with the server's reply (`None` when the
        request fails) as input. */
    method HandleStatusUpdate(itemId: string, newStatus: string, response: Option<LearningItem>)
      modifies this`learningItems
      ensures learningItems == (if response.Some? then ReplaceById(old(learningItems), itemId, response.value)
                                else old(learningItems))
    {
      if response.Some? {
        learningItems := ReplaceById(learningItems, itemId, response.value);
      }
    }

    method SetSearchTerm(value: string)
      modifies this`searchTerm
      ensures searchTerm == value
    {
      searchTerm := value;
    }

    method SetStatusFilter(value: string)
      modifies this`statusFilter
      ensures statusFilter == value
    {
      statusFilter := value;
    }

    method SetTypeFilter(value: string)
      modifies this`typeFilter
      ensures typeFilter == value
    {
      typeFilter := value;
    }

    /** "Clear Filters": all three filters back to their defaults, after
        which the page shows the whole list. */
    method ClearFilters()
      modifies this`searchTerm, this`statusFilter, this`typeFilter
      ensures searchTerm == "" && statusFilter == ALL && typeFilter == ALL
      ensures !IsFiltered()
      ensures FilterDefined(learningItems, searchTerm) && FilteredItems() == learningItems
    {
      searchTerm := "";
      statusFilter := ALL;
      typeFilter := ALL;
      UnfilteredShowsAll();
    }
  }
}

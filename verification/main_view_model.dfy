/**
 * The view-model state holder (ui/MainViewModel.kt): the selected screen, the
 * contact being edited and the contact list it shows, kept in step with the
 * table.
 *
 * Each launched task runs to completion when it is started.  `getAllContacts`
 * starts a collector of the live listing.  From then on, every statement that
 * changes a row of the table makes the listing re-emit, and `contactList` is
 * replaced by new contact objects built from the new listing.
 */
module ViewModel {
  import opened Contacts
  import opened ContactDao

  /** Builds one new contact object per listed row, as a query result is read. */
  method Materialize(rs: seq<Record>) returns (cs: seq<Contact>)
    ensures Records(cs) == rs
    ensures forall c :: c in cs ==> fresh(c)
  {
    cs := [];
    for k := 0 to |rs|
      invariant |cs| == k
      invariant forall i :: 0 <= i < k ==> cs[i].AsRecord() == rs[i]
      invariant forall c :: c in cs ==> fresh(c)
    {
      var c := new Contact(rs[k].name, rs[k].phone, rs[k].favourite, rs[k].id);
      cs := cs + [c];
    }
  }

  /** A contact shown in the list is stored in the table under its key. */
  lemma ListedIsStored(cs: seq<Contact>, table: ContactTable, c: Contact)
    requires Records(cs) == SortListing(table.rows) && c in cs
    ensures c.AsRecord() in table.rows && c.id in Ids(table.rows)
  {
    var k :| 0 <= k < |cs| && cs[k] == c;
    assert Records(cs)[k] in multiset(SortListing(table.rows));
  }

  /** Writing fields of objects other than the list's elements leaves the rows they show alone. */
  twostate lemma RecordsUnchanged(cs: seq<Contact>)
    requires forall c :: c in cs ==> unchanged(c)
    ensures Records(cs) == old(Records(cs))
  {
    forall i | 0 <= i < |cs| ensures Records(cs)[i] == old(Records(cs))[i] {
      assert cs[i] in cs;
    }
  }

  /** Every stored row is shown by some element of the list. */
  lemma StoredIsListed(cs: seq<Contact>, table: ContactTable, row: Record)
    requires Records(cs) == SortListing(table.rows) && row in table.rows
    ensures exists i :: 0 <= i < |cs| && cs[i].AsRecord() == row
  {
    assert row in multiset(table.rows);
    assert row in Records(cs);
    var i :| 0 <= i < |cs| && Records(cs)[i] == row;
  }

  class MainViewModel {
    const dao: ContactTable
    var selectedScreen: string
    var editContact: Contact?
    var contactList: seq<Contact>
    /** Whether a collector of the live listing has been started. */
    var observing: bool

    /** The table is consistent, and before any collector runs the list is the initial empty one. */
    ghost predicate Valid()
      reads this, dao
    {
      dao.Valid() && (!observing ==> contactList == [])
    }

    /** Once a collector runs, the list shows the table's current listing. */
    ghost predicate Synced()
      reads this, dao, contactList
    {
      observing ==> Records(contactList) == SortListing(dao.rows)
    }

    constructor (dao: ContactTable)
      requires dao.Valid()
      ensures Valid() && Synced() && this.dao == dao
      ensures selectedScreen == "" && editContact == null && contactList == [] && !observing
    {
      this.dao := dao;
      selectedScreen := "";
      editContact := null;
      contactList := [];
      observing := false;
    }

    /** `selectPage`: records the screen; nothing else changes. */
    method SelectPage(screen: string)
      requires Valid()
      modifies this`selectedScreen
      ensures Valid() && selectedScreen == screen
    {
      selectedScreen := screen;
    }

    /** One emission of the collector: the list becomes new objects built from the listing. */
    method Emit()
      modifies this`contactList
      ensures Records(contactList) == SortListing(dao.rows)
      ensures forall c :: c in contactList ==> fresh(c)
    {
      var listing := dao.GetContacts();
      assert listing == SortListing(dao.rows);
      contactList := Materialize(listing);
    }

    /** `getAllContacts`: starts a collector; its first emission replaces the list. */
    method GetAllContacts()
      requires dao.Valid()
      modifies this`contactList, this`observing
      ensures Valid() && Synced() && observing
      ensures forall c :: c in contactList ==> fresh(c)
    {
      observing := true;
      Emit();
    }

    /**
     * `saveContact`: inserts the contact, then refreshes the list.  A refused
     * insert ends the task with its exception before the refresh.
     */
    method SaveContact(contact: Contact)
      requires Valid()
      modifies dao, this`contactList, this`observing
      ensures Valid()
      ensures contact.id == Unassigned ==>
        && dao.rows == old(dao.rows) + [old(contact.AsRecord()).(id := old(dao.lastId) + 1)]
        && dao.lastId == old(dao.lastId) + 1
        && observing && Synced() && (forall c :: c in contactList ==> fresh(c))
        && exists i :: 0 <= i < |contactList| && contactList[i].name == contact.name && contactList[i].phone == contact.phone
      ensures contact.id != Unassigned && contact.id in old(Ids(dao.rows)) ==>
        && dao.rows == old(dao.rows) && dao.lastId == old(dao.lastId)
        && contactList == old(contactList) && observing == old(observing)
      ensures contact.id != Unassigned && contact.id !in old(Ids(dao.rows)) ==>
        && dao.rows == old(dao.rows) + [old(contact.AsRecord())]
        && dao.lastId == (if contact.id > old(dao.lastId) then contact.id else old(dao.lastId))
        && observing && Synced() && (forall c :: c in contactList ==> fresh(c))
    {
      var row := contact.AsRecord();
      var result := dao.InsertContact(row);
      ghost var inserted := dao.rows;
      assert contact.id == Unassigned ==> inserted == old(dao.rows) + [row.(id := old(dao.lastId) + 1)];
      assert contact.id != Unassigned && result.Success? ==> inserted == old(dao.rows) + [row];
      if result.Success? {
        GetAllContacts();
        assert dao.rows == inserted;
        StoredIsListed(contactList, dao, row.(id := result.value));
      }
    }

    /** `deleteContact`: removes the contact's row, then refreshes the list. */
    method DeleteContact(contact: Contact)
      requires Valid()
      modifies dao, this`contactList, this`observing
      ensures Valid() && Synced() && observing
      ensures dao.rows == DeleteById(old(dao.rows), contact.id) && dao.lastId == old(dao.lastId)
      ensures forall i :: 0 <= i < |contactList| ==> contactList[i].id != contact.id
      ensures forall c :: c in contactList ==> fresh(c)
    {
      dao.DeleteContact(contact.AsRecord());
      GetAllContacts();
      forall c | c in contactList ensures c.id != contact.id {
        ListedIsStored(contactList, dao, c);
      }
    }

    /**
     * What a running collector does after a statement: it re-emits if a row
     * changed.  A list that showed the listing before the statement still does.
     */
    method Invalidated(changed: bool, ghost wasSynced: bool)
      requires Valid()
      requires wasSynced && observing && !changed ==> Records(contactList) == SortListing(dao.rows)
      modifies this`contactList
      ensures Valid()
      ensures wasSynced ==> Synced()
      ensures observing && changed ==> Records(contactList) == SortListing(dao.rows)
      ensures !(observing && changed) ==> contactList == old(contactList)
    {
      if observing && changed {
        Emit();
      }
    }

    /**
     * `updateContact`: sends the table a contact built from exactly the given
     * name, phone, key and favourite flag.
     */
    method UpdateContact(nameEdit: string, phoneEdit: string, idEdit: int, favouriteEdit: int)
      requires Valid()
      modifies dao, this`contactList
      ensures Valid() && (old(Synced()) ==> Synced())
      ensures dao.rows == UpdateById(old(dao.rows), Record(nameEdit, phoneEdit, favouriteEdit, idEdit))
      ensures dao.lastId == old(dao.lastId)
      ensures observing == old(observing)
    {
      ghost var wasSynced := Synced();
      var update := new Contact(nameEdit, phoneEdit, favouriteEdit, idEdit);
      var changed := dao.UpdateContact(update.AsRecord());
      Invalidated(changed, wasSynced);
    }

    /**
     * Writes `flag` into the caller's own object (no copy is made), then sends
     * it to the table: what `addFavourite` and `removeFavorite` share.  The
     * object may be an element of the list; the list still shows the listing
     * afterwards.
     */
    method SetFavourite(contact: Contact, flag: int)
      requires Valid()
      modifies contact, dao, this`contactList
      ensures Valid() && (old(Synced()) ==> Synced())
      ensures contact.favourite == flag
      ensures dao.rows == UpdateById(old(dao.rows), old(contact.AsRecord()).(favourite := flag))
      ensures dao.lastId == old(dao.lastId)
      ensures observing == old(observing)
    {
      ghost var wasSynced := Synced();
      ghost var listed := contact in contactList;
      // A contact the synced list holds is stored, so the update below changes a row.
      if wasSynced && observing && listed {
        ListedIsStored(contactList, dao, contact);
      }
      var contactEdit := contact;
      contactEdit.favourite := flag;
      var changed := dao.UpdateContact(contactEdit.AsRecord());
      // Otherwise no element of the list is the written object, and the rows are as before.
      if wasSynced && observing && !changed {
        assert !listed;
        RecordsUnchanged(contactList);
      }
      Invalidated(changed, wasSynced);
    }

    /** `addFavourite`: marks the caller's contact object itself as a favourite. */
    method AddFavourite(contact: Contact)
      requires Valid()
      modifies contact, dao, this`contactList
      ensures Valid() && (old(Synced()) ==> Synced())
      ensures contact.favourite == Favourite
      ensures dao.rows == UpdateById(old(dao.rows), old(contact.AsRecord()).(favourite := Favourite))
      ensures dao.lastId == old(dao.lastId)
    {
      SetFavourite(contact, Favourite);
    }

    /** `removeFavorite`: clears the favourite flag on the caller's contact object itself. */
    method RemoveFavorite(contact: Contact)
      requires Valid()
      modifies contact, dao, this`contactList
      ensures Valid() && (old(Synced()) ==> Synced())
      ensures contact.favourite == NotFavourite
      ensures dao.rows == UpdateById(old(dao.rows), old(contact.AsRecord()).(favourite := NotFavourite))
      ensures dao.lastId == old(dao.lastId)
    {
      SetFavourite(contact, NotFavourite);
    }
  }

  /** Marking a contact as a favourite twice leaves the table as marking it once. */
  method AddFavouriteTwice(vm: MainViewModel, contact: Contact)
    requires vm.Valid()
    modifies contact, vm.dao, vm`contactList
    ensures vm.Valid() && contact.favourite == Favourite
    ensures vm.dao.rows == UpdateById(old(vm.dao.rows), old(contact.AsRecord()).(favourite := Favourite))
    ensures vm.dao.lastId == old(vm.dao.lastId)
  {
    ghost var once := UpdateById(vm.dao.rows, contact.AsRecord().(favourite := Favourite));
    vm.AddFavourite(contact);
    assert vm.dao.rows == once;
    vm.AddFavourite(contact);
    UpdateIdempotent(once, contact.AsRecord());
  }

  /**
   * Deleting a stored contact and then saving a new one never hands the new
   * contact the deleted key: the key sequence survives the delete.
   */
  method DeleteThenSave(vm: MainViewModel, gone: Contact, added: Contact)
    requires vm.Valid() && gone.id in Ids(vm.dao.rows) && added.id == Unassigned
    modifies vm.dao, vm`contactList, vm`observing
    ensures vm.Valid() && vm.Synced()
    ensures vm.dao.rows == DeleteById(old(vm.dao.rows), gone.id) + [old(added.AsRecord()).(id := old(vm.dao.lastId) + 1)]
    ensures vm.dao.rows[|vm.dao.rows| - 1].id != gone.id
  {
    ghost var before := vm.dao.lastId;
    ghost var r :| r in vm.dao.rows && r.id == gone.id;
    assert gone.id <= before;
    vm.DeleteContact(gone);
    vm.SaveContact(added);
    assert vm.dao.rows[|vm.dao.rows| - 1].id == before + 1;
  }
}

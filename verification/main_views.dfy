/**
 * The logic of the screens (ui/MainViews.kt): the contact validator, the state
 * of the name and phone fields with the phone-field input filter, the save
 * buttons of the form and edit screens, and the clicks on a listed contact.
 * Layout, navigation and recomposition are not modelled: each handler runs
 * once, when its event happens.
 */
module Views {
  import opened Wrappers
  import opened Contacts
  import opened ContactDao
  import opened ViewModel

  /** The number of digits of a phone number. */
  const PhoneLength: nat := 9

  const FillTheName: string := "Fill the name"
  const PhoneNeedsNineDigits: string := "The phone number should have 9 digits"

  /** A decimal digit, '0' to '9'. */
  predicate IsDigit(ch: char)
  {
    '0' <= ch <= '9'
  }

  predicate AllDigits(s: string)
  {
    forall i :: 0 <= i < |s| ==> IsDigit(s[i])
  }

  /**
   * `validateContactData`: the name is checked first, then the phone.  The
   * flag says whether the data may be saved; the message says why not.
   */
  function ValidateContactData(name: string, phone: string): (r: (bool, Option<string>))
    ensures r.0 <==> r.1 == None
    ensures r.0 <==> name != "" && |phone| == PhoneLength && AllDigits(phone)
    ensures name == "" ==> r.1 == Some(FillTheName)
    ensures name != "" && !r.0 ==> r.1 == Some(PhoneNeedsNineDigits)
  {
    if name == "" then (false, Some(FillTheName))
    else if |phone| != PhoneLength || exists i :: 0 <= i < |phone| && !IsDigit(phone[i]) then
      (false, Some(PhoneNeedsNineDigits))
    else (true, None)
  }

  /** The phone field takes a new value only if it is at most nine digits. */
  predicate AcceptsPhone(value: string)
  {
    |value| <= PhoneLength && AllDigits(value)
  }

  /**
   * For a phone the field accepted and a name that is filled in, the only way
   * validation can fail is a phone of fewer than nine digits.
   */
  lemma AcceptedPhoneFailsOnlyWhenShort(name: string, phone: string)
    requires AcceptsPhone(phone) && name != ""
    ensures ValidateContactData(name, phone).0 <==> |phone| == PhoneLength
    ensures !ValidateContactData(name, phone).0 <==> |phone| < PhoneLength
  {
  }

  /** Data that passes validation is data the phone field could hold. */
  lemma ValidDataIsAccepted(name: string, phone: string)
    requires ValidateContactData(name, phone).0
    ensures AcceptsPhone(phone) && name != ""
  {
  }

  /**
   * The state of a screen's name and phone fields and its error message,
   * shared in shape by the form and edit screens.
   */
  class ContactFields {
    var name: string
    var phone: string
    var errorMessage: Option<string>

    /** Once the user edits the phone, it holds only what the filter lets through. */
    ghost predicate Valid()
      reads this
    {
      AcceptsPhone(phone)
    }

    constructor (name: string, phone: string)
      ensures this.name == name && this.phone == phone && errorMessage == None
    {
      this.name := name;
      this.phone := phone;
      errorMessage := None;
    }

    /** The name field is shown in error: there is a message and the name is empty. */
    function NameIsError(): bool
      reads this
    {
      errorMessage != None && name == ""
    }

    /** The phone field is shown in error: there is a message and the phone is not nine long. */
    function PhoneIsError(): bool
      reads this
    {
      errorMessage != None && |phone| != PhoneLength
    }

    /** The name field takes any edit and clears the message. */
    method OnNameChange(value: string)
      modifies this
      ensures name == value && errorMessage == None && phone == old(phone)
    {
      name := value;
      errorMessage := None;
    }

    /** The phone filter: an edit that is not at most nine digits is dropped. */
    method OnPhoneChange(value: string) returns (accepted: bool)
      modifies this
      ensures accepted <==> AcceptsPhone(value)
      ensures accepted ==> phone == value && errorMessage == None
      ensures !accepted ==> phone == old(phone) && errorMessage == old(errorMessage)
      ensures name == old(name)
      ensures old(Valid()) ==> Valid()
    {
      accepted := |value| <= PhoneLength && forall i :: 0 <= i < |value| ==> IsDigit(value[i]);
      if accepted {
        phone := value;
        errorMessage := None;
      }
    }
  }

  /** The form screen's fields start empty. */
  method OpenFormScreen(vm: MainViewModel) returns (fields: ContactFields)
    requires vm.Valid()
    modifies vm`selectedScreen
    ensures vm.Valid() && vm.selectedScreen == "Form"
    ensures fresh(fields) && fields.Valid()
    ensures fields.name == "" && fields.phone == "" && fields.errorMessage == None
  {
    vm.SelectPage("Form");
    fields := new ContactFields("", "");
  }

  /** Entering the list screen starts the collector that fills the list. */
  method OpenListScreen(vm: MainViewModel)
    requires vm.Valid()
    modifies vm`selectedScreen, vm`contactList, vm`observing
    ensures vm.Valid() && vm.selectedScreen == "List" && vm.observing && vm.Synced()
    ensures Records(vm.contactList) == vm.dao.GetContacts()
    ensures forall c :: c in vm.contactList ==> fresh(c)
  {
    vm.SelectPage("List");
    vm.GetAllContacts();
  }

  /**
   * The save button of the form: valid data is saved as a new contact (not a
   * favourite, key to be generated) and the fields are cleared; otherwise
   * nothing is saved and the validator's message is shown.
   */
  method SaveForm(fields: ContactFields, vm: MainViewModel)
    requires fields.Valid() && vm.Valid()
    modifies fields, vm.dao, vm`contactList, vm`observing
    ensures fields.Valid() && vm.Valid() && (old(vm.Synced()) ==> vm.Synced())
    ensures var (isValid, error) := old(ValidateContactData(fields.name, fields.phone));
      if isValid then
        && vm.dao.rows == old(vm.dao.rows) + [Record(old(fields.name), old(fields.phone), NotFavourite, old(vm.dao.lastId) + 1)]
        && vm.dao.lastId == old(vm.dao.lastId) + 1
        && fields.name == "" && fields.phone == "" && fields.errorMessage == None
        && vm.observing && vm.Synced()
      else
        && fields.errorMessage == error
        && fields.name == old(fields.name) && fields.phone == old(fields.phone)
        && vm.dao.rows == old(vm.dao.rows) && vm.dao.lastId == old(vm.dao.lastId)
        && vm.contactList == old(vm.contactList) && vm.observing == old(vm.observing)
        && (fields.NameIsError() <==> fields.name == "")
        && (fields.NameIsError() || fields.PhoneIsError())
  {
    ghost var before := vm.dao.rows;
    ghost var saved := Record(fields.name, fields.phone, NotFavourite, vm.dao.lastId + 1);
    var (isValid, error) := ValidateContactData(fields.name, fields.phone);
    if isValid {
      var contact := new Contact(fields.name, fields.phone);
      // The insert runs in a launched task, after the handler has cleared the fields.
      fields.name := "";
      fields.phone := "";
      fields.errorMessage := None;
      assert contact.id == Unassigned && vm.dao.rows == before && contact.AsRecord().(id := vm.dao.lastId + 1) == saved;
      vm.SaveContact(contact);
      assert vm.dao.rows == before + [saved];
    } else {
      if fields.name != "" {
        AcceptedPhoneFailsOnlyWhenShort(fields.name, fields.phone);
      }
      fields.errorMessage := error;
      // The list and the objects it holds are as before, so it shows the same rows.
      RecordsUnchanged(vm.contactList);
    }
  }

  /** What the edit screen keeps of the contact it edits: its key and favourite flag. */
  datatype EditTarget = EditTarget(id: int, favourite: int)

  /**
   * Entering the edit screen: it reads the contact set as being edited, keeps
   * its key and favourite flag and fills the fields with its name and phone.
   */
  method OpenEditScreen(vm: MainViewModel) returns (target: EditTarget, fields: ContactFields)
    requires vm.Valid() && vm.editContact != null
    modifies vm`selectedScreen
    ensures vm.Valid() && vm.selectedScreen == "Edit"
    ensures target == EditTarget(vm.editContact.id, vm.editContact.favourite)
    ensures fresh(fields)
    ensures fields.name == vm.editContact.name && fields.phone == vm.editContact.phone
    ensures fields.errorMessage == None
  {
    vm.SelectPage("Edit");
    var editing := vm.editContact;
    target := EditTarget(editing.id, editing.favourite);
    fields := new ContactFields(editing.name, editing.phone);
  }

  /**
   * The save button of the edit screen: valid data updates the row keyed by
   * the edited contact's key, keeping its favourite flag; otherwise nothing is
   * sent and the validator's message is shown.
   */
  method SaveEdit(fields: ContactFields, target: EditTarget, vm: MainViewModel)
    requires vm.Valid()
    modifies fields`errorMessage, vm.dao, vm`contactList
    ensures vm.Valid() && (old(vm.Synced()) ==> vm.Synced())
    ensures fields.name == old(fields.name) && fields.phone == old(fields.phone)
    ensures vm.dao.lastId == old(vm.dao.lastId)
    ensures old(ValidateContactData(fields.name, fields.phone)).0 ==>
      && vm.dao.rows == UpdateById(old(vm.dao.rows), Record(fields.name, fields.phone, target.favourite, target.id))
      && fields.errorMessage == old(fields.errorMessage)
    ensures !old(ValidateContactData(fields.name, fields.phone)).0 ==>
      && fields.errorMessage == old(ValidateContactData(fields.name, fields.phone)).1
      && vm.dao.rows == old(vm.dao.rows) && vm.contactList == old(vm.contactList)
  {
    var (isValid, error) := ValidateContactData(fields.name, fields.phone);
    if isValid {
      vm.UpdateContact(fields.name, fields.phone, target.id, target.favourite);
    } else {
      fields.errorMessage := error;
    }
  }

  /**
   * The heart of a listed contact: the contact becomes the one being edited; a
   * favourite (flag 1) is unmarked, any other flag is marked.
   */
  method OnFavouriteClick(vm: MainViewModel, contact: Contact)
    requires vm.Valid()
    modifies vm`editContact, vm`contactList, vm.dao, contact
    ensures vm.Valid() && (old(vm.Synced()) ==> vm.Synced()) && vm.editContact == contact
    ensures contact.favourite == if old(contact.favourite) == Favourite then NotFavourite else Favourite
    ensures vm.dao.rows == UpdateById(old(vm.dao.rows), old(contact.AsRecord()).(favourite := contact.favourite))
    ensures vm.dao.lastId == old(vm.dao.lastId)
  {
    vm.editContact := contact;
    if contact.favourite == Favourite {
      vm.RemoveFavorite(contact);
    } else {
      vm.AddFavourite(contact);
    }
  }

  /** The bin of a listed contact deletes it. */
  method OnDeleteClick(vm: MainViewModel, contact: Contact)
    requires vm.Valid()
    modifies vm.dao, vm`contactList, vm`observing
    ensures vm.Valid() && vm.Synced()
    ensures vm.dao.rows == DeleteById(old(vm.dao.rows), contact.id) && vm.dao.lastId == old(vm.dao.lastId)
    ensures forall i :: 0 <= i < |vm.contactList| ==> vm.contactList[i].id != contact.id
    ensures forall c :: c in vm.contactList ==> fresh(c)
  {
    vm.DeleteContact(contact);
  }

  /** The pencil of a listed contact makes it the one the edit screen reads. */
  method OnEditClick(vm: MainViewModel, contact: Contact)
    requires vm.Valid()
    modifies vm`editContact
    ensures vm.Valid() && vm.editContact == contact
  {
    vm.editContact := contact;
  }
}

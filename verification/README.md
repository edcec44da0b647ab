# Contact book: a Dafny model

This project models the core of a small Android contact book written in
Kotlin with Jetpack Compose and Room. The app stores contacts with a name, a
nine-digit phone number and a favourite flag in a `contacts` table. It lists
them with favourites first and then by name, and lets the user add, edit,
delete and (un)mark contacts as favourites.

The model has five modules:

- `Wrappers` (`wrappers.dfy`): `Option` and `Result`.
- `Contacts` (`contact.dfy`): the `Contact` entity.
  - `Record` is the value of a stored row.
  - `Contact` is the app's object. Its `favourite` field can be written in place.
- `ContactDao` (`contact_dao.dfy`): the `contacts` table behind `ContactDAO`.
  - Rows are a `seq<Record>` kept in insertion order.
  - `lastId` is the AUTOINCREMENT sequence: generated keys are never reused.
  - The listing is an insertion sort by `favourite DESC, name ASC`, and it is proved
    ordered, a permutation of the rows and unique when no two rows tie.
- `ViewModel` (`main_view_model.dfy`): the `MainViewModel` class.
  - `Valid()` states the table's invariant.
  - `Synced()` states that, once `getAllContacts` has started a collector, the
    list shows exactly the table's current listing.
  - Every method states how it changes the table and whether it keeps `Synced()`.
- `Views` (`main_views.dfy`): the logic of the screens.
  - The validator and the phone input filter.
  - The field state shared by the form and edit screens.
  - The save buttons, and the heart, bin and pencil clicks of a listed contact.

Execution model:

- Each launched coroutine runs to completion when it is launched.
- A running collector re-emits after every statement that changed a row, which
  is how Room's invalidation tracker behaves.
- Each emission is read into new contact objects, as Room does: `Materialize`, `Emit`, `GetAllContacts`, `SaveContact`, `DeleteContact`, `OpenListScreen` and `OnDeleteClick` state that every list element is freshly allocated.
- Clicking the heart of a listed contact writes the flag into that list element
  itself, because `addFavourite`/`removeFavorite` alias their argument
  (`var contactEdit = contact`). The model proves that the list still mirrors
  the table afterwards.

## Model

| member | source | states |
|---|---|---|
| Contacts.Contact.constructor | app/src/main/java/com/example/myapplication/data/Contact.kt:7-12 | name and phone as given; favourite defaults to 0 and id to 0 (unassigned) |
| Contacts.Contact.AsRecord | app/src/main/java/com/example/myapplication/data/Contact.kt:7-12 | the four columns an object is stored as: its name, phone, favourite flag and id |
| Contacts.Records | app/src/main/java/com/example/myapplication/ui/MainViewModel.kt:20-21 | the rows the view model's `List<Contact>` shows (filled at line 48): same length, element i is object i's four columns |
| ContactDao.NameLe | app/src/main/java/com/example/myapplication/data/ContactDAO.kt:26 | `name ASC` under the BINARY collation: lexicographic on character codes; a name sorts before every longer name it is a prefix of |
| ContactDao.NameLeTotal | app/src/main/java/com/example/myapplication/data/ContactDAO.kt:26 | any two names are comparable under `name ASC` |
| ContactDao.NameLeTransitive | app/src/main/java/com/example/myapplication/data/ContactDAO.kt:26 | the name order is transitive |
| ContactDao.NameLeAntisymmetric | app/src/main/java/com/example/myapplication/data/ContactDAO.kt:26 | two names ordered both ways are equal |
| ContactDao.ListedBefore | app/src/main/java/com/example/myapplication/data/ContactDAO.kt:26 | `favourite DESC, name ASC`: a row listed first never has a lower flag, a higher flag is always listed first, equal flags go by name |
| ContactDao.ListedBeforeTotal | app/src/main/java/com/example/myapplication/data/ContactDAO.kt:26 | `favourite DESC, name ASC` relates any two rows one way or the other |
| ContactDao.ListedBeforeTransitive | app/src/main/java/com/example/myapplication/data/ContactDAO.kt:26 | `favourite DESC, name ASC` is transitive |
| ContactDao.InsertOrdered | app/src/main/java/com/example/myapplication/data/ContactDAO.kt:26 | inserting a row adds exactly that row to the multiset of rows |
| ContactDao.InsertOrderedKeepsOrder | app/src/main/java/com/example/myapplication/data/ContactDAO.kt:26 | inserting into an ordered listing leaves it ordered |
| ContactDao.HeadPrecedesInserted | app/src/main/java/com/example/myapplication/data/ContactDAO.kt:26 | the head of an ordered listing that the new row does not precede comes before every row of the rest after insertion |
| ContactDao.SortListing | app/src/main/java/com/example/myapplication/data/ContactDAO.kt:25-27 | the listing is a permutation of the stored rows |
| ContactDao.SortListingOrdered | app/src/main/java/com/example/myapplication/data/ContactDAO.kt:25-27 | the listing is ordered favourites first, then by name |
| ContactDao.OrderedPermutationUnique | app/src/main/java/com/example/myapplication/data/ContactDAO.kt:26 | two ordered permutations of rows with no tie on both keys are equal: the ORDER BY fixes the listing |
| ContactDao.ListingExample | app/src/main/java/com/example/myapplication/data/ContactDAO.kt:25-27 | favourites Zed and Bob and non-favourite Amy are listed Bob, Zed, Amy, whatever the table order |
| ContactDao.UpdateById | app/src/main/java/com/example/myapplication/data/ContactDAO.kt:18-19 | the row with the given key is replaced and every other row is kept, in place |
| ContactDao.DeleteById | app/src/main/java/com/example/myapplication/data/ContactDAO.kt:22-23 | a row survives exactly when its key differs from the deleted one |
| ContactDao.UpdateKeepsKeys | app/src/main/java/com/example/myapplication/data/ContactDAO.kt:18-19 | an update keeps the set of keys and keeps them distinct |
| ContactDao.UpdateAbsentIsNoOp | app/src/main/java/com/example/myapplication/data/ContactDAO.kt:18-19 | an update with a key that is not stored changes nothing |
| ContactDao.UpdateIdempotent | app/src/main/java/com/example/myapplication/data/ContactDAO.kt:18-19 | updating twice with the same contact is updating once |
| ContactDao.FavouriteToggleRestores | app/src/main/java/com/example/myapplication/data/ContactDAO.kt:18-19 | setting a stored row's flag and then writing the original row back restores the table |
| ContactDao.DeleteKeepsDistinct | app/src/main/java/com/example/myapplication/data/ContactDAO.kt:22-23 | a delete keeps keys distinct |
| ContactDao.DeleteAbsentIsNoOp | app/src/main/java/com/example/myapplication/data/ContactDAO.kt:22-23 | deleting a key that is not stored changes nothing |
| ContactDao.DeleteIdempotent | app/src/main/java/com/example/myapplication/data/ContactDAO.kt:22-23 | deleting twice is deleting once |
| ContactDao.DeleteStoredRemovesOne | app/src/main/java/com/example/myapplication/data/ContactDAO.kt:22-23 | deleting a stored key removes exactly one row |
| ContactDao.ContactTable.Valid | app/src/main/java/com/example/myapplication/data/Contact.kt:11 | keys are unique (primary key), no stored row has the unassigned key 0, and every key is at most the AUTOINCREMENT sequence |
| ContactDao.ContactTable.constructor | app/src/main/java/com/example/myapplication/data/ContactDAO.kt:10-28 | an empty, consistent table whose key sequence starts at 0 |
| ContactDao.ContactTable.InsertContact | app/src/main/java/com/example/myapplication/data/ContactDAO.kt:14-15 | key 0 gets the next key of the sequence (never one used before); an explicit key is refused exactly when it is in use; otherwise the row is appended with that key; the invariant is kept |
| ContactDao.ContactTable.UpdateContact | app/src/main/java/com/example/myapplication/data/ContactDAO.kt:18-19 | the new rows are `UpdateById` of the old; `changed` holds exactly when the key was stored; the invariant is kept |
| ContactDao.ContactTable.DeleteContact | app/src/main/java/com/example/myapplication/data/ContactDAO.kt:22-23 | the new rows are `DeleteById` of the old; the key is no longer stored |
| ContactDao.ContactTable.GetContacts | app/src/main/java/com/example/myapplication/data/ContactDAO.kt:25-27 | the listing is ordered and holds every stored row exactly once |
| ViewModel.Materialize | app/src/main/java/com/example/myapplication/ui/MainViewModel.kt:47-48 | the objects read from an emission show exactly the emitted rows |
| ViewModel.ListedIsStored | app/src/main/java/com/example/myapplication/ui/MainViewModel.kt:45-51 | a contact in a list that mirrors the table is a stored row, under a stored key |
| ViewModel.StoredIsListed | app/src/main/java/com/example/myapplication/ui/MainViewModel.kt:45-51 | every stored row appears in a list that mirrors the table |
| ViewModel.RecordsUnchanged | app/src/main/java/com/example/myapplication/ui/MainViewModel.kt:67-72 | writing objects outside a list does not change what the list shows |
| ViewModel.MainViewModel.constructor | app/src/main/java/com/example/myapplication/ui/MainViewModel.kt:11-21 | no screen selected, no contact being edited, an empty list, no collector |
| ViewModel.MainViewModel.SelectPage | app/src/main/java/com/example/myapplication/ui/MainViewModel.kt:24-26 | the selected screen becomes the given one; nothing else changes |
| ViewModel.MainViewModel.Emit | app/src/main/java/com/example/myapplication/ui/MainViewModel.kt:47-49 | after an emission the list shows the table's current listing, in new objects |
| ViewModel.MainViewModel.GetAllContacts | app/src/main/java/com/example/myapplication/ui/MainViewModel.kt:45-51 | a collector runs and the list mirrors the table with new objects |
| ViewModel.MainViewModel.SaveContact | app/src/main/java/com/example/myapplication/ui/MainViewModel.kt:29-34 | an unkeyed contact is appended under the next key, the key sequence advances by one and the refreshed list, made of new objects, shows its name and phone; a contact whose key is in use changes neither the table, the key sequence nor the list; a new explicit key is appended as given, the refreshed list is made of new objects, and the sequence becomes the larger of it and the old sequence |
| ViewModel.MainViewModel.DeleteContact | app/src/main/java/com/example/myapplication/ui/MainViewModel.kt:37-42 | the row is deleted, the key sequence is kept, and the refreshed list is made of new objects, none with the deleted key |
| ViewModel.MainViewModel.Invalidated | app/src/main/java/com/example/myapplication/ui/MainViewModel.kt:47-49 | a running collector re-emits after a changing statement; a list that mirrored the table still does |
| ViewModel.MainViewModel.UpdateContact | app/src/main/java/com/example/myapplication/ui/MainViewModel.kt:54-64 | the table receives exactly the given name, phone, key and flag; the key sequence is kept; the list keeps mirroring the table |
| ViewModel.MainViewModel.SetFavourite | app/src/main/java/com/example/myapplication/ui/MainViewModel.kt:66-82 | the caller's own object gets the flag, the table gets that object's row, the key sequence is kept, and the list keeps mirroring the table even when the object is a list element |
| ViewModel.MainViewModel.AddFavourite | app/src/main/java/com/example/myapplication/ui/MainViewModel.kt:67-73 | the object and its stored row get flag 1; the key sequence is kept |
| ViewModel.MainViewModel.RemoveFavorite | app/src/main/java/com/example/myapplication/ui/MainViewModel.kt:76-82 | the object and its stored row get flag 0; the key sequence is kept |
| ViewModel.AddFavouriteTwice | app/src/main/java/com/example/myapplication/ui/MainViewModel.kt:67-73 | marking a contact twice leaves the table as marking it once |
| ViewModel.DeleteThenSave | app/src/main/java/com/example/myapplication/ui/MainViewModel.kt:29-42 | saving a new contact after deleting a stored one appends it under the next key of the sequence, never the deleted key |
| Views.ValidateContactData | app/src/main/java/com/example/myapplication/ui/MainViews.kt:34-40 | valid exactly when the name is non-empty and the phone is nine decimal digits; no message exactly when valid; an empty name gets "Fill the name", any other failure the nine-digits message |
| Views.AcceptedPhoneFailsOnlyWhenShort | app/src/main/java/com/example/myapplication/ui/MainViews.kt:34-40 | for a phone the input filter accepted and a filled-in name, validation fails exactly when the phone is shorter than nine |
| Views.ValidDataIsAccepted | app/src/main/java/com/example/myapplication/ui/MainViews.kt:34-40 | valid data is data the phone filter lets through, with a non-empty name |
| Views.AcceptsPhone | app/src/main/java/com/example/myapplication/ui/MainViews.kt:123 | the phone filter's condition (also at line 278): at most nine characters, all decimal digits |
| Views.ContactFields.NameIsError | app/src/main/java/com/example/myapplication/ui/MainViews.kt:116 | the name field's `isError` (also at line 272): a message is shown and the name is empty |
| Views.ContactFields.PhoneIsError | app/src/main/java/com/example/myapplication/ui/MainViews.kt:129 | the phone field's `isError` (also at line 284): a message is shown and the phone is not nine long |
| Views.ContactFields.constructor | app/src/main/java/com/example/myapplication/ui/MainViews.kt:96-98 | fields start with the given name and phone and no message |
| Views.ContactFields.OnNameChange | app/src/main/java/com/example/myapplication/ui/MainViews.kt:111-114 | any edit is taken and clears the message |
| Views.ContactFields.OnPhoneChange | app/src/main/java/com/example/myapplication/ui/MainViews.kt:122-127 | an edit is taken exactly when it is at most nine digits, and then clears the message; otherwise nothing changes; the field never holds anything else |
| Views.OpenFormScreen | app/src/main/java/com/example/myapplication/ui/MainViews.kt:55-58 | selects "Form" and starts with empty fields |
| Views.OpenListScreen | app/src/main/java/com/example/myapplication/ui/MainViews.kt:59-63 | selects "List"; the list mirrors the table's listing with new objects, so their hearts can be clicked |
| Views.SaveForm | app/src/main/java/com/example/myapplication/ui/MainViews.kt:142-153 | valid data is appended as a non-favourite under the next key, the key sequence advances by one, the fields are cleared and the list mirrors the table; otherwise only the validator's message is set, the table, key sequence, list and collector are kept, a mirroring list still mirrors, and at least one field, the name exactly when empty, is shown in error |
| Views.OpenEditScreen | app/src/main/java/com/example/myapplication/ui/MainViews.kt:243-250 | selects "Edit", keeps the edited contact's key and flag, fills the fields with its name and phone |
| Views.SaveEdit | app/src/main/java/com/example/myapplication/ui/MainViews.kt:296-304 | valid data updates the row with the kept key, keeping the kept flag, and leaves every field and the key sequence as they were; otherwise only the validator's message is set and nothing is sent |
| Views.OnFavouriteClick | app/src/main/java/com/example/myapplication/ui/MainViews.kt:192-217 | the contact becomes the edited one; flag 1 becomes 0 and any other flag becomes 1, in the object and its row; the key sequence is kept; the list keeps mirroring the table |
| Views.OnDeleteClick | app/src/main/java/com/example/myapplication/ui/MainViews.kt:225 | the contact's row is deleted, the key sequence is kept, and the list the user stays on is made of new objects, none with its key |
| Views.OnEditClick | app/src/main/java/com/example/myapplication/ui/MainViews.kt:231-234 | the contact becomes the one the edit screen reads |

## Left out

- Coroutines, `Flow` and `StateFlow` are not modelled as concurrent. Each launched task runs to completion when launched. A collector is a flag; since `getAllContacts` runs on every entry to the list screen, the app accumulates collectors, and the model keeps only one.
- `StateFlow` conflation is not modelled: an emission equal to the current list is assigned anyway.
- Navigation (`NavHost`, `navController.navigate`) and the top bar are left out. Entering a screen is a method (`OpenFormScreen`, `OpenListScreen`, `OpenEditScreen`) that a caller runs after a handler that navigates.
- Layout, recomposition and `rememberSaveable` restoration are left out; the field state is a `ContactFields` object.
- `Log.d` in the list row and `MainActivity` (database construction) are not part of this model.
- `Views.IsDigit`: Kotlin's `Char.isDigit` accepts every Unicode decimal digit. The model accepts '0' to '9' only.
- Integer widths are unbounded. The 32-bit `Int` of `id` and `favourite` and SQLite's 64-bit rowid limit are not modelled.
- `ContactDao.ContactTable.InsertContact`: a refused insert is a `Failure` result. In the app the exception escapes the coroutine. The model's `SaveContact` then skips the refresh and does not model the crash.
- Ties of the listing (equal flag and name) come out in table order. SQL leaves that order unspecified, and SQLite's table order for explicit keys is key order rather than insertion order.
- `Views.OpenEditScreen` requires a contact being edited. The source's `!!` would throw without one.

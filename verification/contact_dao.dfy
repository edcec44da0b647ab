/**
 * The `contacts` table behind the `ContactDAO` interface (data/ContactDAO.kt):
 * insert with a generated key, update and delete by primary key, and the
 * listing `ORDER BY favourite DESC, name ASC`.
 *
 * The table keeps its rows in the order they were inserted.  With every key
 * generated by the table that is also ascending key order; ties of the listing
 * are reported in that order.
 */
module ContactDao {
  import opened Wrappers
  import opened Contacts

  /** Why an insert is refused: the explicit key is already in use. */
  datatype StoreError = ConstraintViolation

  // ---------------------------------------------------------------------------
  // Keys

  /** The keys present in `rows`. */
  function Ids(rows: seq<Record>): set<int>
  {
    set r | r in rows :: r.id
  }

  /** No two rows share a key: `id` is the primary key. */
  ghost predicate DistinctIds(rows: seq<Record>)
  {
    forall i, j :: 0 <= i < j < |rows| ==> rows[i].id != rows[j].id
  }

  // ---------------------------------------------------------------------------
  // Ordering of the listing

  /**
   * Name order of the BINARY collation: lexicographic on character codes, so a
   * name sorts before every longer name it is a prefix of.
   */
  predicate NameLe(a: string, b: string)
    ensures a <= b ==> NameLe(a, b)
  {
    a == [] || (b != [] && (a[0] < b[0] || (a[0] == b[0] && NameLe(a[1..], b[1..]))))
  }

  lemma {:induction false} NameLeTotal(a: string, b: string)
    ensures NameLe(a, b) || NameLe(b, a)
  {
    if a != [] && b != [] && a[0] == b[0] {
      NameLeTotal(a[1..], b[1..]);
    }
  }

  lemma {:induction false} NameLeTransitive(a: string, b: string, c: string)
    requires NameLe(a, b) && NameLe(b, c)
    ensures NameLe(a, c)
  {
    if a != [] && b != [] && c != [] && a[0] == b[0] == c[0] {
      NameLeTransitive(a[1..], b[1..], c[1..]);
    }
  }

  /** Two strings each at most the other in name order are equal. */
  lemma {:induction false} NameLeAntisymmetric(a: string, b: string)
    requires NameLe(a, b) && NameLe(b, a)
    ensures a == b
  {
    if a != [] && b != [] {
      NameLeAntisymmetric(a[1..], b[1..]);
      assert a == [a[0]] + a[1..] && b == [b[0]] + b[1..];
    }
  }

  /** `a` may be listed before `b`: a higher favourite flag first, then by name. */
  predicate ListedBefore(a: Record, b: Record)
    ensures ListedBefore(a, b) ==> a.favourite >= b.favourite
    ensures a.favourite > b.favourite ==> ListedBefore(a, b)
  {
    a.favourite > b.favourite || (a.favourite == b.favourite && NameLe(a.name, b.name))
  }

  lemma ListedBeforeTotal(a: Record, b: Record)
    ensures ListedBefore(a, b) || ListedBefore(b, a)
  {
    NameLeTotal(a.name, b.name);
  }

  lemma ListedBeforeTransitive(a: Record, b: Record, c: Record)
    requires ListedBefore(a, b) && ListedBefore(b, c)
    ensures ListedBefore(a, c)
  {
    if a.favourite == b.favourite == c.favourite {
      NameLeTransitive(a.name, b.name, c.name);
    }
  }

  /** `s` is in listing order. */
  ghost predicate Ordered(s: seq<Record>)
  {
    forall i, j :: 0 <= i < j < |s| ==> ListedBefore(s[i], s[j])
  }

  /** Puts `x` in front of the first row it may precede. */
  function InsertOrdered(x: Record, s: seq<Record>): (r: seq<Record>)
    ensures multiset(r) == multiset(s) + multiset{x}
  {
    if s == [] then [x]
    else if ListedBefore(x, s[0]) then [x] + s
    else
      assert s == [s[0]] + s[1..];
      [s[0]] + InsertOrdered(x, s[1..])
  }

  /** A head that `x` does not precede comes before every row of the rest with `x` inserted. */
  lemma HeadPrecedesInserted(x: Record, s: seq<Record>)
    requires Ordered(s) && s != [] && ListedBefore(s[0], x)
    ensures forall k :: 0 <= k < |InsertOrdered(x, s[1..])| ==> ListedBefore(s[0], InsertOrdered(x, s[1..])[k])
  {
    var rest := InsertOrdered(x, s[1..]);
    forall k | 0 <= k < |rest| ensures ListedBefore(s[0], rest[k]) {
      var y := rest[k];
      assert y in multiset(rest);
      if y != x {
        assert y in multiset(s[1..]);
        var j :| 0 <= j < |s[1..]| && s[1..][j] == y;
        assert s[j + 1] == y;
      }
    }
  }

  lemma {:induction false} InsertOrderedKeepsOrder(x: Record, s: seq<Record>)
    requires Ordered(s)
    ensures Ordered(InsertOrdered(x, s))
  {
    if s == [] {
    } else if ListedBefore(x, s[0]) {
      forall j | 0 <= j < |s| ensures ListedBefore(x, s[j]) {
        if j > 0 { ListedBeforeTransitive(x, s[0], s[j]); }
      }
    } else {
      ListedBeforeTotal(x, s[0]);
      var rest := InsertOrdered(x, s[1..]);
      InsertOrderedKeepsOrder(x, s[1..]);
      HeadPrecedesInserted(x, s);
      var r := [s[0]] + rest;
      assert r == InsertOrdered(x, s);
      forall i, j | 0 <= i < j < |r| ensures ListedBefore(r[i], r[j]) {
        if i > 0 { assert r[i] == rest[i - 1] && r[j] == rest[j - 1]; }
      }
    }
  }

  /** The rows in listing order; rows with equal keys keep their table order. */
  function SortListing(rows: seq<Record>): (r: seq<Record>)
    ensures multiset(r) == multiset(rows)
  {
    if rows == [] then []
    else
      assert rows == [rows[0]] + rows[1..];
      InsertOrdered(rows[0], SortListing(rows[1..]))
  }

  lemma {:induction false} SortListingOrdered(rows: seq<Record>)
    ensures Ordered(SortListing(rows))
  {
    if rows != [] {
      SortListingOrdered(rows[1..]);
      InsertOrderedKeepsOrder(rows[0], SortListing(rows[1..]));
    }
  }

  /** No two rows of `s` agree on both sort keys. */
  ghost predicate NoTies(s: seq<Record>)
  {
    forall i, j :: 0 <= i < j < |s| ==> s[i].favourite != s[j].favourite || s[i].name != s[j].name
  }

  /** Rows that may each be listed before the other agree on both sort keys. */
  lemma ListedBeforeBothWaysTies(a: Record, b: Record)
    requires ListedBefore(a, b) && ListedBefore(b, a)
    ensures a.favourite == b.favourite && a.name == b.name
  {
    NameLeAntisymmetric(a.name, b.name);
  }

  /** Two orderings of the same tie-free rows start with the same row. */
  lemma OrderedHeadsAgree(s: seq<Record>, t: seq<Record>)
    requires Ordered(s) && Ordered(t) && multiset(s) == multiset(t)
    requires NoTies(s) && s != []
    ensures t != [] && s[0] == t[0]
  {
    assert s[0] in multiset(t);
    assert t[0] in multiset(s);
    var ia :| 0 <= ia < |t| && t[ia] == s[0];
    var ib :| 0 <= ib < |s| && s[ib] == t[0];
    if ib != 0 {
      assert ListedBefore(s[0], t[0]);
      assert ListedBefore(t[0], s[0]);
      ListedBeforeBothWaysTies(s[0], t[0]);
      assert false;
    }
  }

  /** Dropping the same first row from two orderings of the same rows leaves orderings of the same rows. */
  lemma SameRowsAfterHead(s: seq<Record>, t: seq<Record>)
    requires multiset(s) == multiset(t) && s != [] && t != [] && s[0] == t[0]
    ensures multiset(s[1..]) == multiset(t[1..])
  {
    assert s == [s[0]] + s[1..];
    assert t == [t[0]] + t[1..];
    forall y ensures multiset(s[1..])[y] == multiset(t[1..])[y] {
      assert multiset(s)[y] == multiset{s[0]}[y] + multiset(s[1..])[y];
      assert multiset(t)[y] == multiset{t[0]}[y] + multiset(t[1..])[y];
    }
  }

  /** The tail of an ordered, tie-free sequence is ordered and tie-free. */
  lemma OrderedTail(s: seq<Record>)
    requires Ordered(s) && NoTies(s) && s != []
    ensures Ordered(s[1..]) && NoTies(s[1..])
  {
  }

  /** Two listings in order holding the same tie-free rows are the same listing. */
  lemma {:induction false} OrderedPermutationUnique(s: seq<Record>, t: seq<Record>)
    requires Ordered(s) && Ordered(t) && multiset(s) == multiset(t)
    requires NoTies(s)
    ensures s == t
  {
    if s != [] {
      OrderedHeadsAgree(s, t);
      SameRowsAfterHead(s, t);
      OrderedTail(s);
      assert Ordered(t[1..]) by {
        forall i, j | 0 <= i < j < |t[1..]| ensures ListedBefore(t[1..][i], t[1..][j]) {
          assert t[1..][i] == t[i + 1] && t[1..][j] == t[j + 1];
        }
      }
      OrderedPermutationUnique(s[1..], t[1..]);
      assert s == [s[0]] + s[1..] && t == [t[0]] + t[1..];
    }
  }

  // ---------------------------------------------------------------------------
  // Row updates by primary key

  /** `UPDATE contacts SET name, phone, favourite WHERE id = c.id`. */
  function UpdateById(rows: seq<Record>, c: Record): (r: seq<Record>)
    ensures |r| == |rows|
    ensures forall i :: 0 <= i < |rows| ==> r[i] == if rows[i].id == c.id then c else rows[i]
  {
    if rows == [] then []
    else [if rows[0].id == c.id then c else rows[0]] + UpdateById(rows[1..], c)
  }

  /** `DELETE FROM contacts WHERE id = id`. */
  function DeleteById(rows: seq<Record>, id: int): (r: seq<Record>)
    ensures forall x :: x in r <==> x in rows && x.id != id
    ensures |r| <= |rows|
  {
    if rows == [] then []
    else (if rows[0].id == id then [] else [rows[0]]) + DeleteById(rows[1..], id)
  }

  /** An update keeps the set of keys, and rows stay unique by key. */
  lemma UpdateKeepsKeys(rows: seq<Record>, c: Record)
    requires DistinctIds(rows)
    ensures Ids(UpdateById(rows, c)) == Ids(rows)
    ensures DistinctIds(UpdateById(rows, c))
  {
  }

  /** An update whose key is not stored changes nothing. */
  lemma UpdateAbsentIsNoOp(rows: seq<Record>, c: Record)
    requires c.id !in Ids(rows)
    ensures UpdateById(rows, c) == rows
  {
  }

  /** Repeating an update is the same as doing it once. */
  lemma UpdateIdempotent(rows: seq<Record>, c: Record)
    ensures UpdateById(UpdateById(rows, c), c) == UpdateById(rows, c)
  {
  }

  /** Setting the favourite flag of a stored row and then writing the row back restores the table. */
  lemma FavouriteToggleRestores(rows: seq<Record>, k: nat, flag: int)
    requires DistinctIds(rows) && k < |rows|
    ensures UpdateById(UpdateById(rows, rows[k].(favourite := flag)), rows[k]) == rows
  {
  }

  /** Deleting by key keeps the remaining keys unique. */
  lemma {:induction false} DeleteKeepsDistinct(rows: seq<Record>, id: int)
    requires DistinctIds(rows)
    ensures DistinctIds(DeleteById(rows, id))
  {
    if rows != [] {
      DeleteKeepsDistinct(rows[1..], id);
      var rest := DeleteById(rows[1..], id);
      if rows[0].id != id {
        var r := [rows[0]] + rest;
        assert r == DeleteById(rows, id);
        forall j | 0 < j < |r| ensures r[0].id != r[j].id {
          assert r[j] in rest;
          var m :| 0 <= m < |rows[1..]| && rows[1..][m] == r[j];
          assert rows[m + 1] == r[j];
        }
      }
    }
  }

  /** Deleting a key that is not stored changes nothing. */
  lemma {:induction false} DeleteAbsentIsNoOp(rows: seq<Record>, id: int)
    requires id !in Ids(rows)
    ensures DeleteById(rows, id) == rows
  {
    if rows != [] {
      assert rows[0] in rows;
      assert Ids(rows[1..]) <= Ids(rows);
      DeleteAbsentIsNoOp(rows[1..], id);
      assert rows == [rows[0]] + rows[1..];
    }
  }

  /** Deleting twice is the same as deleting once. */
  lemma DeleteIdempotent(rows: seq<Record>, id: int)
    ensures DeleteById(DeleteById(rows, id), id) == DeleteById(rows, id)
  {
    DeleteAbsentIsNoOp(DeleteById(rows, id), id);
  }

  /** Deleting a stored key removes exactly one row. */
  lemma {:induction false} DeleteStoredRemovesOne(rows: seq<Record>, id: int)
    requires DistinctIds(rows) && id in Ids(rows)
    ensures |DeleteById(rows, id)| == |rows| - 1
  {
    assert rows != [];
    if rows[0].id == id {
      forall x | x in rows[1..] ensures x.id != id {
        var m :| 0 <= m < |rows[1..]| && rows[1..][m] == x;
        assert rows[m + 1] == x;
      }
      assert id !in Ids(rows[1..]);
      DeleteAbsentIsNoOp(rows[1..], id);
    } else {
      var x :| x in rows && x.id == id;
      assert x in rows[1..] by { assert rows == [rows[0]] + rows[1..]; }
      DeleteStoredRemovesOne(rows[1..], id);
    }
  }

  /** The listing of the example below is in order, with no ties. */
  lemma ExampleListingOrdered()
    ensures var listing := [Record("Bob", "333333333", 1, 3), Record("Zed", "111111111", 1, 1), Record("Amy", "222222222", 0, 2)];
      Ordered(listing) && NoTies(listing)
  {
  }

  /**
   * The listing of three rows: "Zed" and "Bob" are favourites, "Amy" is not;
   * they are listed Bob, Zed, Amy whatever the order they were inserted in.
   */
  lemma ListingExample(rows: seq<Record>)
    requires multiset(rows) == multiset{Record("Zed", "111111111", 1, 1), Record("Amy", "222222222", 0, 2), Record("Bob", "333333333", 1, 3)}
    ensures SortListing(rows) == [Record("Bob", "333333333", 1, 3), Record("Zed", "111111111", 1, 1), Record("Amy", "222222222", 0, 2)]
  {
    var bob, zed, amy := Record("Bob", "333333333", 1, 3), Record("Zed", "111111111", 1, 1), Record("Amy", "222222222", 0, 2);
    ExampleListingOrdered();
    assert multiset([bob, zed, amy]) == multiset(SortListing(rows));
    SortListingOrdered(rows);
    OrderedPermutationUnique([bob, zed, amy], SortListing(rows));
  }

  // ---------------------------------------------------------------------------
  // The table

  /**
   * The `contacts` table.  `lastId` is the largest key ever handed out, the
   * AUTOINCREMENT sequence: generated keys are never reused, even after a delete.
   */
  class ContactTable {
    var rows: seq<Record>
    var lastId: int

    ghost predicate Valid()
      reads this
      ensures Valid() ==> Unassigned !in Ids(rows)
    {
      && DistinctIds(rows)
      && lastId >= 0
      && forall r :: r in rows ==> r.id != Unassigned && r.id <= lastId
    }

    constructor ()
      ensures Valid() && rows == [] && lastId == 0
    {
      rows := [];
      lastId := 0;
    }

    /**
     * `insertContact`.  Key 0 means "not assigned": the table generates the next
     * key.  Any other key is stored as given unless it is already in use, which
     * aborts the insert with a constraint violation.
     */
    method InsertContact(c: Record) returns (result: Result<int, StoreError>)
      requires Valid()
      modifies this
      ensures Valid()
      ensures lastId >= old(lastId)
      ensures result.Failure? <==> c.id != Unassigned && c.id in old(Ids(rows))
      ensures result.Failure? ==> result.error == ConstraintViolation && rows == old(rows) && lastId == old(lastId)
      ensures result.Success? ==> result.value !in old(Ids(rows)) && rows == old(rows) + [c.(id := result.value)]
      ensures c.id == Unassigned ==> result == Success(old(lastId) + 1) && lastId == old(lastId) + 1
      ensures c.id != Unassigned && result.Success? ==>
        result.value == c.id && lastId == (if c.id > old(lastId) then c.id else old(lastId))
    {
      if c.id == Unassigned {
        var id := lastId + 1;
        assert id !in Ids(rows);
        rows := rows + [c.(id := id)];
        lastId := id;
        result := Success(id);
      } else if c.id in Ids(rows) {
        result := Failure(ConstraintViolation);
      } else {
        forall i | 0 <= i < |rows| ensures rows[i].id != c.id {
          assert rows[i] in rows;
        }
        rows := rows + [c];
        lastId := if c.id > lastId then c.id else lastId;
        result := Success(c.id);
      }
    }

    /**
     * `updateContact`: overwrites name, phone and favourite of the row keyed
     * `c.id`.  `changed` says whether a row matched, which is what makes the
     * live listing re-emit.
     */
    method UpdateContact(c: Record) returns (changed: bool)
      requires Valid()
      modifies this
      ensures Valid()
      ensures rows == UpdateById(old(rows), c) && lastId == old(lastId)
      ensures changed <==> c.id in old(Ids(rows))
      ensures !changed ==> rows == old(rows)
    {
      changed := c.id in Ids(rows);
      if !changed {
        UpdateAbsentIsNoOp(rows, c);
      }
      UpdateKeepsKeys(rows, c);
      var updated := UpdateById(rows, c);
      forall r | r in updated ensures r.id != Unassigned && r.id <= lastId {
        assert r.id in Ids(updated);
      }
      rows := updated;
    }

    /** `deleteContact`: removes the row keyed `c.id`, if there is one. */
    method DeleteContact(c: Record)
      requires Valid()
      modifies this
      ensures Valid()
      ensures rows == DeleteById(old(rows), c.id) && lastId == old(lastId)
      ensures c.id !in Ids(rows)
    {
      DeleteKeepsDistinct(rows, c.id);
      rows := DeleteById(rows, c.id);
    }

    /** `getContacts`: every stored row once, favourites first, then by name. */
    function GetContacts(): (r: seq<Record>)
      reads this
      ensures Ordered(r)
      ensures multiset(r) == multiset(rows)
    {
      SortListingOrdered(rows);
      SortListing(rows)
    }
  }
}

/**
 * `value_counts()` on the Category column of the lobbyist and vendor tables:
 * how many rows carry each category, with missing categories not counted.
 */
module Categories {
  import opened Wrappers
  import opened Records
  import opened Seqs

  /** Each present category mapped to the number of entries that carry it. */
  function CountCategories(cats: seq<Option<string>>): (m: map<string, nat>)
    ensures forall c :: c in m <==> Some(c) in cats
    ensures forall c :: c in m ==> m[c] == multiset(cats)[Some(c)]
  {
    if cats == [] then map[]
    else
      var rest := CountCategories(cats[1..]);
      assert cats == [cats[0]] + cats[1..];
      match cats[0]
      case None => rest
      case Some(c) => rest[c := (if c in rest then rest[c] else 0) + 1]
  }

  /** The counts do not depend on the order of the rows. */
  lemma CountCategoriesPermutation(a: seq<Option<string>>, b: seq<Option<string>>)
    requires multiset(a) == multiset(b)
    ensures CountCategories(a) == CountCategories(b)
  {
  }

  /** The Category column of a table, in table order. */
  function CategoryColumn<R>(rows: seq<R>, category: R -> Option<string>): (cats: seq<Option<string>>)
    ensures |cats| == |rows|
    ensures forall i :: 0 <= i < |rows| ==> cats[i] == category(rows[i])
  {
    if rows == [] then [] else [category(rows[0])] + CategoryColumn(rows[1..], category)
  }

  /** How often a category occurs in the column is how many rows carry it. */
  lemma {:induction false} CategoryOccurrences<R>(rows: seq<R>, category: R -> Option<string>, c: string, inCategory: R -> bool)
    requires forall r :: inCategory(r) == (category(r) == Some(c))
    ensures multiset(CategoryColumn(rows, category))[Some(c)] == |Filter(rows, inCategory)|
  {
    if rows != [] {
      CategoryOccurrences(rows[1..], category, c, inCategory);
      var cats := CategoryColumn(rows, category);
      assert cats == [category(rows[0])] + CategoryColumn(rows[1..], category);
      assert multiset(cats) == multiset{category(rows[0])} + multiset(CategoryColumn(rows[1..], category));
    }
  }

  /** Lobbyists by category: every category that occurs, with the number of lobbyists that carry it. */
  function LobbyistsByCategory(lobbyists: seq<LobbyistRecord>): (m: map<string, nat>)
    ensures forall c :: c in m <==> exists l :: l in lobbyists && l.category == Some(c)
    ensures forall c :: c in m ==> m[c] == |Filter(lobbyists, (l: LobbyistRecord) => l.category == Some(c))|
    ensures forall c :: c in m ==> 1 <= m[c] <= |lobbyists|
  {
    var cats := CategoryColumn(lobbyists, (l: LobbyistRecord) => l.category);
    var m := CountCategories(cats);
    forall c ensures (c in m <==> exists l :: l in lobbyists && l.category == Some(c)) {
      if c in m {
        var i :| 0 <= i < |cats| && cats[i] == Some(c);
        assert lobbyists[i] in lobbyists;
      }
      if exists l :: l in lobbyists && l.category == Some(c) {
        var l :| l in lobbyists && l.category == Some(c);
        var i :| 0 <= i < |lobbyists| && lobbyists[i] == l;
        assert cats[i] == Some(c);
      }
    }
    forall c | c in m ensures m[c] == |Filter(lobbyists, (l: LobbyistRecord) => l.category == Some(c))| {
      CategoryOccurrences(lobbyists, (l: LobbyistRecord) => l.category, c,
        (l: LobbyistRecord) => l.category == Some(c));
    }
    m
  }

  /** Vendors by category: every category that occurs, with the number of vendors that carry it. */
  function VendorsByCategory(vendors: seq<VendorRecord>): (m: map<string, nat>)
    ensures forall c :: c in m <==> exists v :: v in vendors && v.category == Some(c)
    ensures forall c :: c in m ==> m[c] == |Filter(vendors, (v: VendorRecord) => v.category == Some(c))|
    ensures forall c :: c in m ==> 1 <= m[c] <= |vendors|
  {
    var cats := CategoryColumn(vendors, (v: VendorRecord) => v.category);
    var m := CountCategories(cats);
    forall c ensures (c in m <==> exists v :: v in vendors && v.category == Some(c)) {
      if c in m {
        var i :| 0 <= i < |cats| && cats[i] == Some(c);
        assert vendors[i] in vendors;
      }
      if exists v :: v in vendors && v.category == Some(c) {
        var v :| v in vendors && v.category == Some(c);
        var i :| 0 <= i < |vendors| && vendors[i] == v;
        assert cats[i] == Some(c);
      }
    }
    forall c | c in m ensures m[c] == |Filter(vendors, (v: VendorRecord) => v.category == Some(c))| {
      CategoryOccurrences(vendors, (v: VendorRecord) => v.category, c,
        (v: VendorRecord) => v.category == Some(c));
    }
    m
  }
}

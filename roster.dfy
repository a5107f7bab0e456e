/**
 * The fixed roster of the current Commissioners Court: an insertion-ordered
 * mapping from position title to the names holding it, and the flattening of
 * it into one list of names.
 */
module Roster {

  /** One roster entry: a position title and the names holding it. */
  datatype Seat = Seat(position: string, names: seq<string>)

  type RosterMap = seq<Seat>

  const CurrentOfficials: RosterMap := [
    Seat("County Judge", ["Lina Hidalgo"]),
    Seat("Commissioner Precinct 1", ["Rodney Ellis"]),
    Seat("Commissioner Precinct 2", ["Adrian Garcia"]),
    Seat("Commissioner Precinct 3", ["Tom Ramsey"]),
    Seat("Commissioner Precinct 4", ["Lesley Briones"])
  ]

  /** The name lists of the roster, concatenated in roster order. */
  function Flatten(roster: RosterMap): seq<string>
  {
    if roster == [] then []
    else Flatten(roster[..|roster| - 1]) + roster[|roster| - 1].names
  }

  /** The number of names over all seats. */
  function NameCount(roster: RosterMap): nat
  {
    if roster == [] then 0 else |roster[0].names| + NameCount(roster[1..])
  }

  /** The roster flattened by extending an accumulator seat by seat. */
  method GetOfficialNames(roster: RosterMap) returns (names: seq<string>)
    ensures names == Flatten(roster)
  {
    names := [];
    for i := 0 to |roster|
      invariant names == Flatten(roster[..i])
    {
      assert roster[..i + 1][..i] == roster[..i];
      names := names + roster[i].names;
    }
    assert roster[..|roster|] == roster;
  }

  lemma {:induction false} FlattenPrepend(seat: Seat, roster: RosterMap)
    ensures Flatten([seat] + roster) == seat.names + Flatten(roster)
    decreases |roster|
  {
    if roster != [] {
      var init := roster[..|roster| - 1];
      assert ([seat] + roster)[..|roster|] == [seat] + init;
      FlattenPrepend(seat, init);
    } else {
      assert [seat] + roster == [seat];
      assert [seat][..0] == [];
    }
  }

  /** The flattened list is as long as all name lists together. */
  lemma {:induction false} FlattenLength(roster: RosterMap)
    ensures |Flatten(roster)| == NameCount(roster)
  {
    if roster != [] {
      FlattenLength(roster[1..]);
      assert roster == [roster[0]] + roster[1..];
      FlattenPrepend(roster[0], roster[1..]);
    }
  }

  /** A name is in the flattened list exactly when some seat lists it. */
  lemma {:induction false} FlattenMembers(roster: RosterMap, name: string)
    ensures name in Flatten(roster) <==> exists i :: 0 <= i < |roster| && name in roster[i].names
  {
    if roster != [] {
      var init := roster[..|roster| - 1];
      FlattenMembers(init, name);
      if name in Flatten(roster) {
        if name !in Flatten(init) {
          assert name in roster[|roster| - 1].names;
        } else {
          var i :| 0 <= i < |init| && name in init[i].names;
          assert roster[i] == init[i];
        }
      }
      if exists i :: 0 <= i < |roster| && name in roster[i].names {
        var i :| 0 <= i < |roster| && name in roster[i].names;
        if i < |init| {
          assert init[i] == roster[i];
        }
      }
    }
  }

  /** The current roster tracks five officials. */
  lemma CurrentOfficialsCount()
    ensures |Flatten(CurrentOfficials)| == 5
    ensures Flatten(CurrentOfficials) ==
      ["Lina Hidalgo", "Rodney Ellis", "Adrian Garcia", "Tom Ramsey", "Lesley Briones"]
  {
    var r := CurrentOfficials;
    assert Flatten(r[..1]) == ["Lina Hidalgo"] by {
      assert r[..1][..0] == [];
    }
    assert Flatten(r[..2]) == Flatten(r[..1]) + ["Rodney Ellis"] by {
      assert r[..2][..1] == r[..1];
    }
    assert Flatten(r[..3]) == Flatten(r[..2]) + ["Adrian Garcia"] by {
      assert r[..3][..2] == r[..2];
    }
    assert Flatten(r[..4]) == Flatten(r[..3]) + ["Tom Ramsey"] by {
      assert r[..4][..3] == r[..3];
    }
    assert Flatten(r) == Flatten(r[..4]) + ["Lesley Briones"];
  }
}

/**
 * The player picker (PlayerDropdown.jsx): the list of players offered, one
 * entry per distinct name in the order names first appear, and the guard on
 * the button that adds a new player.
 */
module PlayerDropdown {
  import opened Common
  import opened JsText

  /** One option of the list: the name, shown also as the nickname. */
  datatype Entry = Entry(name: string, nickname: string)

  /** `players.map(p => ({ name: p.name, nickname: p.name }))`, a missing list read as empty. */
  function Entries(players: Option<seq<string>>): (r: seq<Entry>)
    ensures |r| == if players.Some? then |players.value| else 0
  {
    var ps := if players.Some? then players.value else [];
    seq(|ps|, i requires 0 <= i < |ps| => Entry(ps[i], ps[i]))
  }

  /** `arr.findIndex(x => x.name === name)`: the first position with that name, or -1. */
  function FindIndex(arr: seq<Entry>, name: string): (r: int)
    ensures -1 <= r < |arr|
    ensures r >= 0 ==> arr[r].name == name
  {
    if arr == [] then -1
    else if arr[0].name == name then 0
    else
      var r := FindIndex(arr[1..], name);
      if r == -1 then -1 else r + 1
  }

  /** The position found is the first with that name; -1 means none has it. */
  lemma {:induction false} FindIndexFirst(arr: seq<Entry>, name: string)
    ensures FindIndex(arr, name) == -1 <==> forall i :: 0 <= i < |arr| ==> arr[i].name != name
    ensures forall i :: 0 <= i < FindIndex(arr, name) ==> arr[i].name != name
  {
    if arr != [] && arr[0].name != name {
      FindIndexFirst(arr[1..], name);
      assert forall i :: 1 <= i < |arr| ==> arr[i] == arr[1..][i - 1];
    }
  }

  /** `arr.filter((p, i, arr) => arr.findIndex(x => x.name === p.name) === i)`, over the first `n` entries. */
  function KeepFirst(arr: seq<Entry>, n: nat): seq<Entry>
    requires n <= |arr|
  {
    if n == 0 then []
    else KeepFirst(arr, n - 1) + (if FindIndex(arr, arr[n - 1].name) == n - 1 then [arr[n - 1]] else [])
  }

  /** The list offered. */
  function AllPlayers(players: Option<seq<string>>): seq<Entry>
  {
    var arr := Entries(players);
    KeepFirst(arr, |arr|)
  }

  predicate UniqueNames(es: seq<Entry>)
  {
    forall a, b :: 0 <= a < b < |es| ==> es[a].name != es[b].name
  }

  /** An entry is kept exactly when no earlier entry has its name. */
  lemma KeptIff(arr: seq<Entry>, i: nat)
    requires i < |arr|
    ensures FindIndex(arr, arr[i].name) == i <==> forall j :: 0 <= j < i ==> arr[j].name != arr[i].name
  {
    FindIndexFirst(arr, arr[i].name);
  }

  /** The names of the entries, in order. */
  function NamesOf(es: seq<Entry>): (r: seq<string>)
    ensures |r| == |es|
  {
    seq(|es|, k requires 0 <= k < |es| => es[k].name)
  }

  lemma NamesOfSnoc(es: seq<Entry>, e: Entry)
    ensures NamesOf(es + [e]) == NamesOf(es) + [e.name]
  {
  }

  /** After the first `n` entries, the kept names are exactly the names among those entries. */
  lemma {:induction false} KeepFirstNames(arr: seq<Entry>, n: nat)
    requires n <= |arr|
    ensures forall x :: x in NamesOf(KeepFirst(arr, n)) <==> x in NamesOf(arr[..n])
  {
    if n > 0 {
      KeepFirstNames(arr, n - 1);
      var prev := KeepFirst(arr, n - 1);
      var e := arr[n - 1];
      assert arr[..n] == arr[..n - 1] + [e];
      NamesOfSnoc(arr[..n - 1], e);
      if FindIndex(arr, e.name) == n - 1 {
        NamesOfSnoc(prev, e);
      } else {
        var j := FindIndex(arr, e.name);
        FindIndexFirst(arr, e.name);
        assert arr[n - 1].name == e.name;
        assert j < n - 1;
        assert NamesOf(arr[..n - 1])[j] == e.name;
        assert KeepFirst(arr, n) == prev;
        assert NamesOf(arr[..n]) == NamesOf(arr[..n - 1]) + [e.name];
      }
    }
  }

  /** After the first `n` entries, the kept names are distinct. */
  lemma {:induction false} KeepFirstUnique(arr: seq<Entry>, n: nat)
    requires n <= |arr|
    ensures UniqueNames(KeepFirst(arr, n))
  {
    if n > 0 {
      KeepFirstUnique(arr, n - 1);
      var prev := KeepFirst(arr, n - 1);
      var e := arr[n - 1];
      if FindIndex(arr, e.name) == n - 1 {
        KeptBelow(arr, n - 1);
        var cur := prev + [e];
        assert KeepFirst(arr, n) == cur;
        forall a, b | 0 <= a < b < |cur| ensures cur[a].name != cur[b].name {
          assert cur[a] == prev[a];
          if b < |prev| {
            assert cur[b] == prev[b];
          } else {
            assert FindIndex(arr, prev[a].name) < n - 1;
          }
        }
      } else {
        assert KeepFirst(arr, n) == prev;
      }
    }
  }

  /** Every kept entry is the first occurrence of its name among the first `n`. */
  lemma {:induction false} KeptEarlier(arr: seq<Entry>, n: nat)
    requires n <= |arr|
    ensures forall k :: 0 <= k < |KeepFirst(arr, n)| ==>
      0 <= FindIndex(arr, KeepFirst(arr, n)[k].name) < n && KeepFirst(arr, n)[k] == arr[FindIndex(arr, KeepFirst(arr, n)[k].name)]
  {
    if n > 0 {
      KeptEarlier(arr, n - 1);
      var prev := KeepFirst(arr, n - 1);
      var e := arr[n - 1];
      if FindIndex(arr, e.name) == n - 1 {
        var cur := prev + [e];
        assert KeepFirst(arr, n) == cur;
        forall k | 0 <= k < |cur| ensures 0 <= FindIndex(arr, cur[k].name) < n && cur[k] == arr[FindIndex(arr, cur[k].name)] {
          if k < |prev| {
            assert cur[k] == prev[k];
          }
        }
      } else {
        assert KeepFirst(arr, n) == prev;
      }
    }
  }

  lemma KeptBelow(arr: seq<Entry>, n: nat)
    requires n <= |arr|
    ensures forall k :: 0 <= k < |KeepFirst(arr, n)| ==> FindIndex(arr, KeepFirst(arr, n)[k].name) < n
  {
    KeptEarlier(arr, n);
  }

  /** The kept entries keep the order of their first occurrences. */
  lemma {:induction false} KeepFirstOrder(arr: seq<Entry>, n: nat)
    requires n <= |arr|
    ensures forall a, b :: 0 <= a < b < |KeepFirst(arr, n)| ==>
      FindIndex(arr, KeepFirst(arr, n)[a].name) < FindIndex(arr, KeepFirst(arr, n)[b].name)
  {
    if n > 0 {
      KeepFirstOrder(arr, n - 1);
      KeptBelow(arr, n - 1);
      var prev := KeepFirst(arr, n - 1);
      var e := arr[n - 1];
      if FindIndex(arr, e.name) == n - 1 {
        var cur := prev + [e];
        assert KeepFirst(arr, n) == cur;
        forall a, b | 0 <= a < b < |cur| ensures FindIndex(arr, cur[a].name) < FindIndex(arr, cur[b].name) {
          assert cur[a] == prev[a];
          if b < |prev| {
            assert cur[b] == prev[b];
            assert FindIndex(arr, prev[a].name) < FindIndex(arr, prev[b].name);
          } else {
            assert FindIndex(arr, prev[a].name) < n - 1;
          }
        }
      } else {
        assert KeepFirst(arr, n) == prev;
      }
    }
  }

  /** The offered list: distinct names, every player's name, first occurrences in order, nickname equal to name. */
  lemma AllPlayersSpec(players: seq<string>)
    ensures UniqueNames(AllPlayers(Some(players)))
    ensures forall x :: x in NamesOf(AllPlayers(Some(players))) <==> x in players
    ensures forall k :: 0 <= k < |AllPlayers(Some(players))| ==> AllPlayers(Some(players))[k].nickname == AllPlayers(Some(players))[k].name
    ensures forall a, b :: 0 <= a < b < |AllPlayers(Some(players))| ==>
      FirstAt(players, AllPlayers(Some(players))[a].name) < FirstAt(players, AllPlayers(Some(players))[b].name)
    ensures |AllPlayers(Some(players))| <= |players|
  {
    var arr := Entries(Some(players));
    KeepFirstNames(arr, |arr|);
    KeepFirstUnique(arr, |arr|);
    KeptEarlier(arr, |arr|);
    KeepFirstOrder(arr, |arr|);
    KeepFirstShorter(arr, |arr|);
    assert arr[..|arr|] == arr;
    assert NamesOf(arr) == players;
    var all := AllPlayers(Some(players));
    forall k | 0 <= k < |all| ensures all[k].nickname == all[k].name {
      var i := FindIndex(arr, all[k].name);
      assert all[k] == arr[i] == Entry(players[i], players[i]);
    }
    forall x ensures FirstAt(players, x) == FindIndex(arr, x) {
      FirstAtEntries(players, x);
    }
  }

  /** The first position of `x` among the names, or -1. */
  function FirstAt(names: seq<string>, x: string): int
  {
    if names == [] then -1
    else if names[0] == x then 0
    else
      var r := FirstAt(names[1..], x);
      if r == -1 then -1 else r + 1
  }

  lemma {:induction false} FirstAtEntries(names: seq<string>, x: string)
    ensures FirstAt(names, x) == FindIndex(Entries(Some(names)), x)
  {
    if names != [] {
      FirstAtEntries(names[1..], x);
      assert Entries(Some(names))[1..] == Entries(Some(names[1..]));
    }
  }

  lemma {:induction false} KeepFirstShorter(arr: seq<Entry>, n: nat)
    requires n <= |arr|
    ensures |KeepFirst(arr, n)| <= n
  {
    if n > 0 {
      KeepFirstShorter(arr, n - 1);
    }
  }

  /** The Add button is disabled while adding, for a blank name, or for a name already offered. */
  predicate AddDisabled(adding: bool, newPlayerName: string, allPlayers: seq<Entry>)
  {
    adding || Trim(newPlayerName) == "" || exists k :: 0 <= k < |allPlayers| && allPlayers[k].name == Trim(newPlayerName)
  }

  /**
   * Adding is possible exactly when nothing is being added, the trimmed
   * name is not blank, and no player already has that name.
   */
  lemma AddEnabledIff(adding: bool, newPlayerName: string, players: seq<string>)
    ensures !AddDisabled(adding, newPlayerName, AllPlayers(Some(players))) <==>
      !adding && (exists i :: 0 <= i < |newPlayerName| && !IsSpace(newPlayerName[i])) && Trim(newPlayerName) !in players
  {
    TrimEmpty(newPlayerName);
    OfferedIff(Trim(newPlayerName), players);
  }

  /** A name is offered exactly when some player has it. */
  lemma OfferedIff(x: string, players: seq<string>)
    ensures (exists k :: 0 <= k < |AllPlayers(Some(players))| && AllPlayers(Some(players))[k].name == x) <==> x in players
  {
    AllPlayersSpec(players);
    var all := AllPlayers(Some(players));
    if exists k :: 0 <= k < |all| && all[k].name == x {
      var k :| 0 <= k < |all| && all[k].name == x;
      assert NamesOf(all)[k] == x;
    }
    if x in NamesOf(all) {
      var k :| 0 <= k < |all| && NamesOf(all)[k] == x;
      assert all[k].name == x;
    }
  }
}

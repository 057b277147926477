/** The sorted table from node identifiers to artifact positions. */
module NodeMap {
  import opened Bytes

  datatype Entry = Entry(id: u32, index: nat)

  ghost predicate Sorted(s: seq<Entry>) {
    forall i, j :: 0 <= i < j < |s| ==> s[i].id <= s[j].id
  }

  lemma SwapKeeps(s: seq<Entry>, i: nat, j: nat)
    requires i < j < |s|
    ensures multiset(s[i := s[j]][j := s[i]]) == multiset(s)
  {
  }

  /** Everything up to `last` is sorted apart from the hole, and what follows the hole is above `value`. */
  ghost predicate Shifted(s: seq<Entry>, hole: nat, last: nat, value: Entry)
    requires hole <= last < |s|
  {
    && (forall i, j :: 0 <= i < j <= last && i != hole && j != hole ==> s[i].id <= s[j].id)
    && (forall j :: hole < j <= last ==> s[j].id > value.id)
  }

  lemma ShiftBegins(s: seq<Entry>, last: nat)
    requires last < |s| && Sorted(s[..last])
    ensures Shifted(s, last, last, s[last])
  {
    forall i, j | 0 <= i < j < last ensures s[i].id <= s[j].id { assert s[..last][i].id <= s[..last][j].id; }
  }

  /** Moving the entry before the hole into it moves the hole. */
  lemma ShiftMoves(s: seq<Entry>, hole: nat, last: nat, value: Entry)
    requires 0 < hole <= last < |s| && Shifted(s, hole, last, value) && s[hole - 1].id > value.id
    ensures Shifted(s[hole := s[hole - 1]], hole - 1, last, value)
  {
  }

  lemma ShiftKeeps(s: seq<Entry>, hole: nat, value: Entry)
    requires 0 < hole < |s|
    ensures multiset(s[hole := s[hole - 1]][hole - 1 := value]) == multiset(s[hole := value])
  {
    var t := s[hole := value];
    SwapKeeps(t, hole - 1, hole);
    assert s[hole := s[hole - 1]][hole - 1 := value] == t[hole - 1 := t[hole]][hole := t[hole - 1]];
  }

  lemma ShiftEnds(s: seq<Entry>, hole: nat, last: nat, value: Entry)
    requires hole <= last < |s| && Shifted(s, hole, last, value) && (hole == 0 || s[hole - 1].id <= value.id)
    ensures Sorted(s[hole := value][..last + 1])
  {
    var t := s[hole := value][..last + 1];
    forall i, j | 0 <= i < j < |t| ensures t[i].id <= t[j].id {
      if j == hole && i < hole - 1 { assert s[i].id <= s[hole - 1].id; }
    }
  }

  /** One pass of the insertion sort: put the entry at `last` where it belongs before it. */
  method Insert(table: array<Entry>, last: nat)
    requires last < table.Length && Sorted(table[..last])
    modifies table
    ensures Sorted(table[..last + 1]) && multiset(table[..]) == multiset(old(table[..]))
  {
    hide Shifted, Sorted;
    var value := table[last];
    var position := last;
    assert table[..][..last] == table[..last];
    ShiftBegins(table[..], last);
    assert table[..][last := value] == table[..];
    while position > 0 && table[position - 1].id > value.id
      invariant position <= last && Shifted(table[..], position, last, value)
      invariant multiset(table[..][position := value]) == multiset(old(table[..]))
    {
      ghost var s := table[..];
      ShiftMoves(s, position, last, value);
      ShiftKeeps(s, position, value);
      table[position] := table[position - 1];
      assert table[..] == s[position := s[position - 1]];
      position := position - 1;
    }
    ghost var s := table[..];
    ShiftEnds(s, position, last, value);
    table[position] := value;
    assert table[..] == s[position := value];
  }

  method Sort(table: array<Entry>)
    modifies table
    ensures Sorted(table[..]) && multiset(table[..]) == multiset(old(table[..]))
  {
    if table.Length == 0 { return; }
    for index := 1 to table.Length
      invariant Sorted(table[..index]) && multiset(table[..]) == multiset(old(table[..]))
    {
      Insert(table, index);
    }
    assert table[..table.Length] == table[..];
  }

  /** Binary search: the position stored for `id`, or none when no entry has it. */
  method Find(table: array<Entry>, id: u32) returns (found: bool, index: nat)
    requires Sorted(table[..])
    ensures found ==> Entry(id, index) in table[..]
    ensures !found ==> forall e :: e in table[..] ==> e.id != id
  {
    var begin, end := 0, table.Length;
    while begin < end
      invariant 0 <= begin <= end <= table.Length
      invariant forall i :: 0 <= i < begin ==> table[..][i].id < id
      invariant forall i :: end <= i < table.Length ==> table[..][i].id > id
    {
      var middle := begin + (end - begin) / 2;
      assert table[middle] == table[..][middle];
      if table[middle].id == id { return true, table[middle].index; }
      if table[middle].id < id { begin := middle + 1; } else { end := middle; }
    }
    return false, 0;
  }

  /** The identifiers and positions of a list of nodes. */
  ghost function Entries(ids: seq<u32>): (r: seq<Entry>)
    ensures |r| == |ids| && forall i :: 0 <= i < |ids| ==> r[i] == Entry(ids[i], i)
  {
    seq(|ids|, i requires 0 <= i < |ids| => Entry(ids[i], i))
  }

  ghost predicate MapOf(table: seq<Entry>, ids: seq<u32>) {
    Sorted(table) && multiset(table) == multiset(Entries(ids))
  }

  method Build(ids: seq<u32>) returns (table: array<Entry>)
    ensures MapOf(table[..], ids) && fresh(table)
  {
    table := new Entry[|ids|](_ => Entry(0, 0));
    for index := 0 to |ids|
      invariant forall i :: 0 <= i < index ==> table[i] == Entry(ids[i], i)
    {
      table[index] := Entry(ids[index], index);
    }
    assert table[..] == Entries(ids);
    Sort(table);
  }

  /** The table answers exactly for the identifiers it was built from. */
  lemma MapAnswers(table: seq<Entry>, ids: seq<u32>, e: Entry)
    requires MapOf(table, ids)
    ensures e in table <==> e.index < |ids| && ids[e.index] == e.id
  {
    assert e in table <==> e in multiset(table);
    assert e in Entries(ids) <==> e in multiset(Entries(ids));
    if e.index < |ids| && ids[e.index] == e.id { assert Entries(ids)[e.index] == e; }
  }

  method Lookup(table: array<Entry>, ids: seq<u32>, id: u32) returns (found: bool, index: nat)
    requires MapOf(table[..], ids)
    ensures found <==> id in ids
    ensures found ==> index < |ids| && ids[index] == id
  {
    found, index := Find(table, id);
    if found {
      MapAnswers(table[..], ids, Entry(id, index));
    } else {
      forall i | 0 <= i < |ids| ensures ids[i] != id { MapAnswers(table[..], ids, Entry(ids[i], i)); }
    }
  }
}

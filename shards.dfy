/**
 * The shard store of `etl.py`: one file per shard key under the data
 * directory, opened in append mode for every flushed name. The directory is
 * modelled as a map from shard key to file content; a file that does not
 * exist yet reads as empty, as opening it in append mode creates it.
 */
module Shards {
  import opened Text

  type ShardMap = map<string, string>

  /** `name[:2]`: the first two characters, or the whole name if shorter. */
  function ShardKey(name: string): string {
    if |name| < 2 then name else name[..2]
  }

  /** The shard key is a prefix of the name, two characters long unless the
      name is shorter. */
  lemma ShardKeyIsPrefix(name: string)
    ensures ShardKey(name) <= name
    ensures |ShardKey(name)| == if |name| < 2 then |name| else 2
  {
  }

  /** What the shard file for `k` holds; a missing file holds nothing. */
  function Content(m: ShardMap, k: string): string {
    if k in m then m[k] else []
  }

  /** One `file.write(name)` on the shard file of `name`: the name is appended
      with no separator. */
  function AppendOne(m: ShardMap, name: string): ShardMap {
    var k := ShardKey(name);
    m[k := Content(m, k) + name]
  }

  /** The shard store after appending `names` in order. */
  function Appended(m: ShardMap, names: seq<string>): ShardMap {
    if names == [] then m
    else AppendOne(Appended(m, names[..|names| - 1]), names[|names| - 1])
  }

  /** The names of `names`, in order, whose shard key is `k`. */
  function OfShard(names: seq<string>, k: string): seq<string> {
    if names == [] then []
    else
      var last := names[|names| - 1];
      OfShard(names[..|names| - 1], k) + (if ShardKey(last) == k then [last] else [])
  }

  lemma AppendedSnoc(m: ShardMap, names: seq<string>, d: string)
    ensures Appended(m, names + [d]) == AppendOne(Appended(m, names), d)
  {
    assert (names + [d])[..|names|] == names;
  }

  /** Appending two runs of names one after the other is appending their
      concatenation. */
  lemma {:induction false} AppendedAppend(m: ShardMap, a: seq<string>, b: seq<string>)
    ensures Appended(Appended(m, a), b) == Appended(m, a + b)
  {
    if b == [] {
      assert a + b == a;
    } else {
      var n := |b| - 1;
      AppendedAppend(m, a, b[..n]);
      assert b[..n] + [b[n]] == b;
      assert (a + b[..n]) + [b[n]] == a + b;
      AppendedSnoc(Appended(m, a), b[..n], b[n]);
      AppendedSnoc(m, a + b[..n], b[n]);
    }
  }

  /** The loop of `lines_to_disk` on the directory: every name of the set is
      appended once, in the order the set is iterated. */
  method AppendAll(m: ShardMap, names: set<string>) returns (r: ShardMap, ghost order: seq<string>)
    ensures IsEnumeration(order, names)
    ensures r == Appended(m, order)
  {
    r := m;
    order := [];
    var rest := names;
    while rest != {}
      invariant rest <= names
      invariant SetOf(order) == names - rest && Distinct(order)
      invariant r == Appended(m, order)
      decreases rest
    {
      var name :| name in rest;
      AppendedSnoc(m, order, name);
      SetOfSnoc(order, name);
      r := AppendOne(r, name);
      order := order + [name];
      rest := rest - {name};
    }
  }

  lemma OfShardSnoc(names: seq<string>, d: string, k: string)
    ensures OfShard(names + [d], k) == OfShard(names, k) + (if ShardKey(d) == k then [d] else [])
  {
    assert (names + [d])[..|names|] == names;
  }

  /** One append touches only the shard of the name's key. */
  lemma ContentAppendOne(m: ShardMap, d: string, k: string)
    ensures Content(AppendOne(m, d), k) == if ShardKey(d) == k then Content(m, k) + d else Content(m, k)
  {
  }

  /** After appending `names`, the shard for `k` holds what it held before
      followed by the names keyed `k`, in order and with nothing between them. */
  lemma {:induction false} AppendedContent(m: ShardMap, names: seq<string>, k: string)
    ensures Content(Appended(m, names), k) == Content(m, k) + Concat(OfShard(names, k))
  {
    if names == [] {
      assert Content(m, k) + [] == Content(m, k);
    } else {
      var n := |names| - 1;
      var last := names[n];
      AppendedContent(m, names[..n], k);
      assert Appended(m, names) == AppendOne(Appended(m, names[..n]), last);
      assert OfShard(names, k) == OfShard(names[..n], k) + (if ShardKey(last) == k then [last] else []);
      ContentStep(Appended(m, names[..n]), Content(m, k), OfShard(names[..n], k), last, k);
    }
  }

  /** One step of `AppendedContent`: appending a name extends the shard of its
      key by the name and leaves every other shard as it was. */
  lemma ContentStep(prev: ShardMap, c: string, before: seq<string>, last: string, k: string)
    requires Content(prev, k) == c + Concat(before)
    ensures Content(AppendOne(prev, last), k) == c + Concat(before + (if ShardKey(last) == k then [last] else []))
  {
    ContentAppendOne(prev, last, k);
    if ShardKey(last) == k {
      ConcatSnoc(before, last);
      assert (c + Concat(before)) + last == c + (Concat(before) + last);
    } else {
      assert before + [] == before;
    }
  }

  /** A shard exists after appending `names` exactly when it existed before or
      some name went to it. */
  lemma {:induction false} AppendedKeys(m: ShardMap, names: seq<string>, k: string)
    ensures k in Appended(m, names) <==> k in m || OfShard(names, k) != []
  {
    if names != [] {
      var n := |names| - 1;
      AppendedKeys(m, names[..n], k);
    }
  }

  /** Every name keyed `k` comes from `names` and has key `k`. */
  lemma {:induction false} OfShardMembers(names: seq<string>, k: string)
    ensures forall d | d in OfShard(names, k) :: d in names && ShardKey(d) == k
  {
    if names != [] {
      var n := |names| - 1;
      OfShardMembers(names[..n], k);
      assert forall d | d in names[..n] :: d in names;
    }
  }

  /** A name of `names` is among those keyed by its own shard key. */
  lemma {:induction false} InOwnShard(names: seq<string>, i: int)
    requires 0 <= i < |names|
    ensures names[i] in OfShard(names, ShardKey(names[i]))
  {
    var n := |names| - 1;
    if i < n {
      InOwnShard(names[..n], i);
      assert names[..n][i] == names[i];
    }
  }

  /** A shard that no name is keyed by is left as it was, absent or not. */
  lemma {:induction false} OtherShardsUnchanged(m: ShardMap, names: seq<string>, k: string)
    requires forall i | 0 <= i < |names| :: ShardKey(names[i]) != k
    ensures k in Appended(m, names) <==> k in m
    ensures k in m ==> Appended(m, names)[k] == m[k]
  {
    if names != [] {
      var n := |names| - 1;
      OtherShardsUnchanged(m, names[..n], k);
    }
  }

  /** Every appended name is present, as a contiguous piece, in the content of
      the shard its key names. */
  lemma StoredInShard(m: ShardMap, names: seq<string>, i: int)
    requires 0 <= i < |names|
    ensures ShardKey(names[i]) in Appended(m, names)
    ensures IsFactor(names[i], Appended(m, names)[ShardKey(names[i])])
  {
    var k := ShardKey(names[i]);
    InOwnShard(names, i);
    AppendedKeys(m, names, k);
    AppendedContent(m, names, k);
    var w := OfShard(names, k);
    var j :| 0 <= j < |w| && w[j] == names[i];
    ConcatFactor(w, j);
    FactorExtendLeft(names[i], Content(m, k), Concat(w));
  }

  /** In a store built from an empty directory, every written name occurs in
      the shard of its key. */
  lemma EveryFlushedNameStored(names: seq<string>)
    ensures forall d | d in SetOf(names) ::
              ShardKey(d) in Appended(map[], names) && IsFactor(d, Appended(map[], names)[ShardKey(d)])
  {
    forall d | d in SetOf(names)
      ensures ShardKey(d) in Appended(map[], names) && IsFactor(d, Appended(map[], names)[ShardKey(d)])
    {
      var i :| 0 <= i < |names| && names[i] == d;
      StoredInShard(map[], names, i);
    }
  }

  /** In a store built from an empty directory, each shard is exactly the
      concatenation, in write order, of the names keyed to it. */
  lemma ShardsAreConcatenations(names: seq<string>)
    ensures forall k | k in Appended(map[], names) :: Appended(map[], names)[k] == Concat(OfShard(names, k))
  {
    forall k | k in Appended(map[], names) ensures Appended(map[], names)[k] == Concat(OfShard(names, k)) {
      AppendedContent(map[], names, k);
      assert Content(map[], k) == [];
    }
  }

  /** A shard of a store built from whitespace-free names holds no whitespace,
      and in particular no line break. */
  lemma ShardsHaveNoNewline(names: seq<string>, k: string)
    requires forall i | 0 <= i < |names| :: IsWord(names[i])
    requires k in Appended(map[], names)
    ensures '\n' !in Appended(map[], names)[k]
  {
    AppendedContent(map[], names, k);
    OfShardMembers(names, k);
    assert Content(map[], k) == [];
    var w := OfShard(names, k);
    forall j | 0 <= j < |w| ensures NoSpace(w[j]) {
      assert w[j] in w;
    }
    ConcatNoSpace(w);
    assert Appended(map[], names)[k] == Concat(w);
    NoSpaceNoNewline(Concat(w));
  }
}

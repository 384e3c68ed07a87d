/** The three maps every tag store of the bot keeps (tag → category,
    alias → tag, tag → implied tags) and the loops that fill them from
    e621's CSV exports. Both tag managers and `E621Tags` run the same loops
    and differ only in which rows they admit, so the loops are written once
    here over an `entry` function that says what a row contributes. */
module TagMaps {
  import opened Wrappers
  import opened Ordering
  import opened Categories

  /** A row of the tags export (`TagCsv`; the id column is never read). */
  datatype TagRow = TagRow(name: string, category: int, postCount: int)

  /** A row of the alias or implication export (`TagAliasCsv` /
      `TagImplicationCsv`; id and creation date are never read). */
  datatype RelationRow = RelationRow(antecedent: string, consequent: string, status: string)

  type Tags = map<string, Category>
  type Aliases = map<string, string>
  type Implications = map<string, seq<string>>

  /** `map.get(k)` with an empty list for a missing key. */
  function Entries(m: Implications, k: string): seq<string> {
    if k in m then m[k] else []
  }

  /** No later row than `i` writes the key row `i` writes. */
  ghost predicate LastWrite<R, V>(rows: seq<R>, i: int, entry: R -> Option<(string, V)>)
    requires 0 <= i < |rows| && entry(rows[i]).Some?
  {
    forall j :: i < j < |rows| && entry(rows[j]).Some? ==> entry(rows[j]).value.0 != entry(rows[i]).value.0
  }

  /** No row writes key `k`. */
  ghost predicate Untouched<R, V>(rows: seq<R>, k: string, entry: R -> Option<(string, V)>) {
    forall i :: 0 <= i < |rows| && entry(rows[i]).Some? ==> entry(rows[i]).value.0 != k
  }

  /** The `for row in csv { if … { map.insert(k, v) } }` loop: each row whose
      `entry` is `Some((k, v))` overwrites key `k` with `v`. */
  function Insert<R, V(==)>(m: map<string, V>, rows: seq<R>, entry: R -> Option<(string, V)>): (r: map<string, V>)
    ensures forall i :: 0 <= i < |rows| && entry(rows[i]).Some? ==> entry(rows[i]).value.0 in r
    ensures forall k :: k in r ==> (k in m && r[k] == m[k]) || exists i :: 0 <= i < |rows| && entry(rows[i]) == Some((k, r[k]))
    ensures forall i :: 0 <= i < |rows| && entry(rows[i]).Some? && LastWrite(rows, i, entry) ==>
              r[entry(rows[i]).value.0] == entry(rows[i]).value.1
    ensures forall k :: k in m && Untouched(rows, k, entry) ==> k in r && r[k] == m[k]
    decreases |rows|
  {
    if |rows| == 0 then m
    else
      var init := rows[..|rows| - 1];
      var p := Insert(m, init, entry);
      var last := rows[|rows| - 1];
      InsertStep(m, init, last, entry, p);
      assert rows == init + [last];
      match entry(last)
      case None => p
      case Some(kv) => p[kv.0 := kv.1]
  }

  /** The induction step of `Insert`, one row appended to `init`. */
  lemma InsertStep<R, V>(m: map<string, V>, init: seq<R>, last: R, entry: R -> Option<(string, V)>, p: map<string, V>)
    requires forall i :: 0 <= i < |init| && entry(init[i]).Some? ==> entry(init[i]).value.0 in p
    requires forall k :: k in p ==> (k in m && p[k] == m[k]) || exists i :: 0 <= i < |init| && entry(init[i]) == Some((k, p[k]))
    requires forall i :: 0 <= i < |init| && entry(init[i]).Some? && LastWrite(init, i, entry) ==>
               p[entry(init[i]).value.0] == entry(init[i]).value.1
    requires forall k :: k in m && Untouched(init, k, entry) ==> k in p && p[k] == m[k]
    ensures var rows := init + [last];
            var r := match entry(last) case None => p case Some(kv) => p[kv.0 := kv.1];
            (forall i :: 0 <= i < |rows| && entry(rows[i]).Some? ==> entry(rows[i]).value.0 in r) &&
            (forall k :: k in r ==> (k in m && r[k] == m[k]) || exists i :: 0 <= i < |rows| && entry(rows[i]) == Some((k, r[k]))) &&
            (forall i :: 0 <= i < |rows| && entry(rows[i]).Some? && LastWrite(rows, i, entry) ==>
               r[entry(rows[i]).value.0] == entry(rows[i]).value.1) &&
            (forall k :: k in m && Untouched(rows, k, entry) ==> k in r && r[k] == m[k])
  {
    var rows := init + [last];
    var r := match entry(last) case None => p case Some(kv) => p[kv.0 := kv.1];
    var n := |init|;
    forall i | 0 <= i < |rows| && entry(rows[i]).Some? && LastWrite(rows, i, entry)
      ensures r[entry(rows[i]).value.0] == entry(rows[i]).value.1
    {
      if i < n {
        assert rows[i] == init[i];
        assert LastWrite(init, i, entry) by {
          forall j | i < j < n && entry(init[j]).Some?
            ensures entry(init[j]).value.0 != entry(init[i]).value.0
          {
            assert rows[j] == init[j];
          }
        }
        if entry(last).Some? {
          assert rows[n] == last;
        }
      }
    }
    forall k | k in r
      ensures (k in m && r[k] == m[k]) || exists i :: 0 <= i < |rows| && entry(rows[i]) == Some((k, r[k]))
    {
      if entry(last).Some? && k == entry(last).value.0 {
        assert entry(rows[n]) == Some((k, r[k]));
      } else if !(k in m && r[k] == m[k]) {
        var i :| 0 <= i < n && entry(init[i]) == Some((k, p[k]));
        assert rows[i] == init[i];
      }
    }
    forall k | k in m && Untouched(rows, k, entry)
      ensures k in r && r[k] == m[k]
    {
      assert Untouched(init, k, entry) by {
        forall i | 0 <= i < n && entry(init[i]).Some? ensures entry(init[i]).value.0 != k {
          assert rows[i] == init[i];
        }
      }
      if entry(last).Some? {
        assert rows[n] == last;
      }
    }
    forall i | 0 <= i < |rows| && entry(rows[i]).Some? ensures entry(rows[i]).value.0 in r {
      if i < n {
        assert rows[i] == init[i];
      }
    }
  }

  /** `implications.entry(a).or_default().push(c)`. */
  function Push(imps: Implications, a: string, c: string): (r: Implications)
    ensures a in r && Entries(r, a) == Entries(imps, a) + [c]
    ensures forall b :: b != a ==> Entries(r, b) == Entries(imps, b)
    ensures r.Keys == imps.Keys + {a}
  {
    imps[a := Entries(imps, a) + [c]]
  }

  /** The consequents the rows contribute to antecedent `a`, in row order. */
  function ConsequentsOf<R>(rows: seq<R>, entry: R -> Option<(string, string)>, a: string): (r: seq<string>)
    ensures |r| <= |rows|
    ensures forall c :: c in r <==> exists i :: 0 <= i < |rows| && entry(rows[i]) == Some((a, c))
    decreases |rows|
  {
    if |rows| == 0 then []
    else
      var init := rows[..|rows| - 1];
      var last := rows[|rows| - 1];
      assert rows == init + [last];
      var p := ConsequentsOf(init, entry, a);
      assert forall i :: 0 <= i < |init| ==> rows[i] == init[i];
      match entry(last)
      case Some(kv) => if kv.0 == a then p + [kv.1] else p
      case None => p
  }

  /** The `implications.entry(a).or_default().push(c)` loop: each row whose
      `entry` is `Some((a, c))` appends `c` to the list of `a`, creating it
      when missing. */
  function Append<R>(imps: Implications, rows: seq<R>, entry: R -> Option<(string, string)>): (r: Implications)
    ensures forall a :: a in r <==> a in imps || exists i :: 0 <= i < |rows| && entry(rows[i]).Some? && entry(rows[i]).value.0 == a
    ensures forall a :: Entries(r, a) == Entries(imps, a) + ConsequentsOf(rows, entry, a)
    decreases |rows|
  {
    if |rows| == 0 then
      assert forall a :: Entries(imps, a) + [] == Entries(imps, a);
      imps
    else
      var init := rows[..|rows| - 1];
      var last := rows[|rows| - 1];
      assert rows == init + [last];
      assert forall i :: 0 <= i < |init| ==> rows[i] == init[i];
      var p := Append(imps, init, entry);
      AppendKeysStep(imps, init, last, entry, p);
      assert forall a :: Entries(p, a) == Entries(imps, a) + ConsequentsOf(init, entry, a);
      forall a { AppendEntryStep(imps, init, last, entry, p, a); }
      match entry(last)
      case None => p
      case Some(kv) => Push(p, kv.0, kv.1)
  }

  /** The induction step of `Append` for the key set. */
  lemma AppendKeysStep<R>(imps: Implications, init: seq<R>, last: R, entry: R -> Option<(string, string)>, p: Implications)
    requires forall a :: a in p <==> a in imps || exists i :: 0 <= i < |init| && entry(init[i]).Some? && entry(init[i]).value.0 == a
    ensures var rows := init + [last];
            var r := match entry(last) case None => p case Some(kv) => p[kv.0 := Entries(p, kv.0) + [kv.1]];
            forall a :: a in r <==> a in imps || exists i :: 0 <= i < |rows| && entry(rows[i]).Some? && entry(rows[i]).value.0 == a
  {
    var rows := init + [last];
    assert forall i :: 0 <= i < |init| ==> rows[i] == init[i];
    assert rows[|init|] == last;
  }

  /** The induction step of `Append` for the list of one antecedent. */
  lemma AppendEntryStep<R>(imps: Implications, init: seq<R>, last: R, entry: R -> Option<(string, string)>, p: Implications, a: string)
    requires Entries(p, a) == Entries(imps, a) + ConsequentsOf(init, entry, a)
    ensures var rows := init + [last];
            var r := match entry(last) case None => p case Some(kv) => p[kv.0 := Entries(p, kv.0) + [kv.1]];
            Entries(r, a) == Entries(imps, a) + ConsequentsOf(rows, entry, a)
  {
    var rows := init + [last];
    assert rows[..|rows| - 1] == init;
    assert rows[|rows| - 1] == last;
    if entry(last).Some? && entry(last).value.0 == a {
      assert ConsequentsOf(rows, entry, a) == ConsequentsOf(init, entry, a) + [entry(last).value.1];
      assert Entries(imps, a) + ConsequentsOf(init, entry, a) + [entry(last).value.1]
          == Entries(imps, a) + (ConsequentsOf(init, entry, a) + [entry(last).value.1]);
    } else {
      assert ConsequentsOf(rows, entry, a) == ConsequentsOf(init, entry, a);
    }
  }

  /** Row `i` is admitted and no later row with its name is. */
  ghost predicate LastNamed(rows: seq<TagRow>, i: int, admit: TagRow -> Option<Category>)
    requires 0 <= i < |rows|
  {
    forall j :: i < j < |rows| && rows[j].name == rows[i].name ==> admit(rows[j]).None?
  }

  /** No later pair than `i` names the key pair `i` names. */
  predicate LastPair<V>(pairs: seq<(string, V)>, i: int)
    requires 0 <= i < |pairs|
  {
    forall j :: i < j < |pairs| ==> pairs[j].0 != pairs[i].0
  }

  /** `for (k, v) in table { map.insert(k, v) }`: every key of the table is
      present, the last pair naming a key gives its value, and keys the table
      does not name keep their old value. */
  function InsertPairs<V(==)>(m: map<string, V>, pairs: seq<(string, V)>): (r: map<string, V>)
    ensures forall i :: 0 <= i < |pairs| ==> pairs[i].0 in r
    ensures forall k :: k in r ==> k in m || exists i :: 0 <= i < |pairs| && pairs[i].0 == k
    ensures forall i :: 0 <= i < |pairs| && LastPair(pairs, i) ==> r[pairs[i].0] == pairs[i].1
    ensures forall k :: k in m && (forall i :: 0 <= i < |pairs| ==> pairs[i].0 != k) ==> k in r && r[k] == m[k]
  {
    var entry := (kv: (string, V)) => Some(kv);
    var r := Insert(m, pairs, entry);
    forall i | 0 <= i < |pairs| && LastPair(pairs, i) ensures r[pairs[i].0] == pairs[i].1 {
      assert LastWrite(pairs, i, entry);
    }
    forall k | k in m && (forall i :: 0 <= i < |pairs| ==> pairs[i].0 != k) ensures k in r && r[k] == m[k] {
      assert Untouched(pairs, k, entry);
    }
    forall k | k in r && !(k in m) ensures exists i :: 0 <= i < |pairs| && pairs[i].0 == k {
      var i :| 0 <= i < |pairs| && entry(pairs[i]) == Some((k, r[k]));
    }
    r
  }

  /** The last pair naming the key of pair `i`. */
  lemma {:induction false} LastNaming<V>(pairs: seq<(string, V)>, i: int) returns (j: int)
    requires 0 <= i < |pairs|
    ensures i <= j < |pairs| && pairs[j].0 == pairs[i].0 && LastPair(pairs, j)
    decreases |pairs| - i
  {
    if LastPair(pairs, i) {
      j := i;
    } else {
      var k :| i < k < |pairs| && pairs[k].0 == pairs[i].0;
      j := LastNaming(pairs, k);
    }
  }

  /** Loading the same table twice is loading it once. */
  lemma InsertPairsIdempotent<V>(m: map<string, V>, pairs: seq<(string, V)>)
    ensures InsertPairs(InsertPairs(m, pairs), pairs) == InsertPairs(m, pairs)
  {
    var r1 := InsertPairs(m, pairs);
    var r2 := InsertPairs(r1, pairs);
    forall k | k in r2 ensures k in r1 && r2[k] == r1[k] {
      if i :| 0 <= i < |pairs| && pairs[i].0 == k {
        var j := LastNaming(pairs, i);
      }
    }
    assert r2 == r1;
  }

  /** `add_tags_from_csv` of every tag store: each row `admit` accepts
      (with a category) is inserted, a later row overriding an earlier one. */
  function InsertTagRows(tags: Tags, rows: seq<TagRow>, admit: TagRow -> Option<Category>): (r: Tags)
    ensures forall i :: 0 <= i < |rows| && admit(rows[i]).Some? ==> rows[i].name in r
    ensures forall k :: k in r ==>
              (k in tags && r[k] == tags[k]) || exists i :: 0 <= i < |rows| && rows[i].name == k && admit(rows[i]) == Some(r[k])
    ensures forall i :: 0 <= i < |rows| && admit(rows[i]).Some? && LastNamed(rows, i, admit) ==>
              r[rows[i].name] == admit(rows[i]).value
    ensures forall k :: k in tags && (forall i :: 0 <= i < |rows| && rows[i].name == k ==> admit(rows[i]).None?) ==>
              k in r && r[k] == tags[k]
  {
    var entry := (row: TagRow) => match admit(row) case None => None case Some(c) => Some((row.name, c));
    var r := Insert(tags, rows, entry);
    forall k | k in r && !(k in tags && r[k] == tags[k])
      ensures exists i :: 0 <= i < |rows| && rows[i].name == k && admit(rows[i]) == Some(r[k])
    {
      var i :| 0 <= i < |rows| && entry(rows[i]) == Some((k, r[k]));
    }
    r
  }

  /** What an alias row contributes: an allowed status and a known
      consequent are required. */
  function AliasEntry(tags: Tags, allowed: set<string>, row: RelationRow): Option<(string, string)> {
    if row.status in allowed && row.consequent in tags then Some((row.antecedent, row.consequent)) else None
  }

  /** `add_aliases_from_csv` of every tag store. */
  function InsertAliasRows(aliases: Aliases, rows: seq<RelationRow>, tags: Tags, allowed: set<string>): (r: Aliases)
    ensures forall i :: 0 <= i < |rows| && rows[i].status in allowed && rows[i].consequent in tags ==>
              rows[i].antecedent in r
    ensures forall k :: k in r ==>
              (k in aliases && r[k] == aliases[k]) ||
              (exists i :: 0 <= i < |rows| && rows[i].status in allowed && rows[i].antecedent == k && rows[i].consequent == r[k])
    ensures forall k :: k in r && !(k in aliases && r[k] == aliases[k]) ==> r[k] in tags
    ensures forall k :: k in aliases && (forall i :: 0 <= i < |rows| ==> AliasEntry(tags, allowed, rows[i]).None? || rows[i].antecedent != k) ==>
              k in r && r[k] == aliases[k]
    ensures AliasesKnown(tags, aliases) ==> AliasesKnown(tags, r)
  {
    var entry := (row: RelationRow) => AliasEntry(tags, allowed, row);
    var r := Insert(aliases, rows, entry);
    forall k | k in r && !(k in aliases && r[k] == aliases[k])
      ensures exists i :: 0 <= i < |rows| && rows[i].status in allowed && rows[i].antecedent == k && rows[i].consequent == r[k]
      ensures r[k] in tags
    {
      var i :| 0 <= i < |rows| && entry(rows[i]) == Some((k, r[k]));
    }
    r
  }

  /** What an implication row contributes: an allowed status and two known
      tags are required. */
  function ImplicationEntry(tags: Tags, allowed: set<string>, row: RelationRow): Option<(string, string)> {
    if row.status in allowed && row.antecedent in tags && row.consequent in tags
    then Some((row.antecedent, row.consequent)) else None
  }

  /** The consequents of `a` among the rows with an allowed status and two
      known tags, in row order. */
  function AcceptedConsequents(rows: seq<RelationRow>, tags: Tags, allowed: set<string>, a: string): (r: seq<string>)
    ensures forall c :: c in r ==> a in tags && c in tags
    ensures forall c :: c in r <==>
              (exists i :: 0 <= i < |rows| && rows[i].status in allowed && rows[i].antecedent == a && rows[i].consequent == c &&
                           a in tags && c in tags)
  {
    if |rows| == 0 then []
    else
      var rest := AcceptedConsequents(rows[1..], tags, allowed, a);
      assert forall i :: 1 <= i < |rows| ==> rows[i] == rows[1..][i - 1];
      var row := rows[0];
      if row.status in allowed && row.antecedent == a && a in tags && row.consequent in tags
      then [row.consequent] + rest else rest
  }

  lemma {:induction false} ConsequentsAccepted(rows: seq<RelationRow>, tags: Tags, allowed: set<string>, a: string,
                                               entry: RelationRow -> Option<(string, string)>)
    requires forall row :: entry(row) == ImplicationEntry(tags, allowed, row)
    ensures ConsequentsOf(rows, entry, a) == AcceptedConsequents(rows, tags, allowed, a)
    decreases |rows|
  {
    if |rows| > 0 {
      var init := rows[..|rows| - 1];
      var last := rows[|rows| - 1];
      ConsequentsAccepted(init, tags, allowed, a, entry);
      AcceptedSnoc(init, last, tags, allowed, a);
      assert rows == init + [last];
    }
  }

  lemma {:induction false} AcceptedSnoc(init: seq<RelationRow>, last: RelationRow, tags: Tags, allowed: set<string>, a: string)
    ensures AcceptedConsequents(init + [last], tags, allowed, a) ==
            AcceptedConsequents(init, tags, allowed, a) + AcceptedConsequents([last], tags, allowed, a)
    decreases |init|
  {
    if |init| > 0 {
      assert (init + [last])[1..] == init[1..] + [last];
      AcceptedSnoc(init[1..], last, tags, allowed, a);
    } else {
      assert init + [last] == [last];
    }
  }

  /** `add_implications_from_csv` of every tag store: the consequents of
      the accepted rows are appended to their antecedent's list, in CSV
      order. */
  function AppendImplicationRows(imps: Implications, rows: seq<RelationRow>, tags: Tags, allowed: set<string>): (r: Implications)
    ensures forall a :: a in r <==> a in imps || AcceptedConsequents(rows, tags, allowed, a) != []
    ensures forall a :: Entries(r, a) == Entries(imps, a) + AcceptedConsequents(rows, tags, allowed, a)
  {
    var entry := (row: RelationRow) => ImplicationEntry(tags, allowed, row);
    var r := Append(imps, rows, entry);
    forall a ensures Entries(r, a) == Entries(imps, a) + AcceptedConsequents(rows, tags, allowed, a)
                 && (a in r <==> a in imps || AcceptedConsequents(rows, tags, allowed, a) != [])
    {
      ConsequentsAccepted(rows, tags, allowed, a, entry);
      if a in r && a !in imps {
        var i :| 0 <= i < |rows| && entry(rows[i]).Some? && entry(rows[i]).value.0 == a;
        assert rows[i].consequent in ConsequentsOf(rows, entry, a);
      }
    }
    r
  }

  /** The elements of a list, as a set. */
  function Elems(xs: seq<string>): set<string> {
    set x | x in xs
  }

  /** The antecedents among `keys` whose implications include `c`. */
  function Antecedents(imps: Implications, keys: set<string>, c: string): set<string> {
    set a | a in keys && a in imps && c in imps[a]
  }

  /** Appends `a` to the inverse list of each of `cs`. */
  function Invert(inv: Implications, a: string, cs: seq<string>): (r: Implications)
    ensures forall c :: c in r <==> c in inv || c in cs
    ensures forall c :: Elems(Entries(r, c)) == Elems(Entries(inv, c)) + (if c in cs then {a} else {})
    decreases |cs|
  {
    if |cs| == 0 then inv
    else
      var init := cs[..|cs| - 1];
      var p := Invert(inv, a, init);
      var c := cs[|cs| - 1];
      assert cs == init + [c];
      var r := p[c := Entries(p, c) + [a]];
      assert Elems(Entries(r, c)) == Elems(Entries(p, c)) + {a};
      assert forall d :: d != c ==> Entries(r, d) == Entries(p, d);
      r
  }

  /** The first loop of `compute_inverse_implications`, visiting the
      antecedents in the iteration order `order` of the implication map. */
  function InvertAll(inv: Implications, imps: Implications, order: seq<string>): (r: Implications)
    requires forall a :: a in order ==> a in imps
    ensures forall c :: c in r <==> c in inv || exists a :: a in order && c in imps[a]
    ensures forall c :: Elems(Entries(r, c)) == Elems(Entries(inv, c)) + Antecedents(imps, Elems(order), c)
    decreases |order|
  {
    if |order| == 0 then
      assert forall c :: Antecedents(imps, Elems(order), c) == {};
      inv
    else
      var init := order[..|order| - 1];
      var a := order[|order| - 1];
      assert order == init + [a];
      assert Elems(order) == Elems(init) + {a};
      var p := InvertAll(inv, imps, init);
      var r := Invert(p, a, imps[a]);
      forall c ensures Elems(Entries(r, c)) == Elems(Entries(inv, c)) + Antecedents(imps, Elems(order), c) {
        AntecedentsAdd(imps, Elems(init), a, c);
      }
      r
  }

  lemma AntecedentsAdd(imps: Implications, keys: set<string>, a: string, c: string)
    requires a in imps
    ensures Antecedents(imps, keys + {a}, c) == Antecedents(imps, keys, c) + (if c in imps[a] then {a} else {})
  {
  }

  /** `compute_inverse_implications`: every inverse list, old entries and
      new, sorted and deduplicated. A Rust `HashMap` is visited in an
      unspecified order; `order` is that order and must list every key. */
  function ComputeInverse(inv: Implications, imps: Implications, order: seq<string>): (r: Implications)
    requires forall a :: a in order <==> a in imps
    ensures forall c :: c in r <==> c in inv || exists a :: a in imps && c in imps[a]
    ensures forall c :: c in r ==> StrictlySorted(r[c])
    ensures forall c :: Elems(Entries(r, c)) == Elems(Entries(inv, c)) + Antecedents(imps, imps.Keys, c)
  {
    var raw := InvertAll(inv, imps, order);
    var r := map c | c in raw :: SortDedup(raw[c]);
    forall c ensures Elems(Entries(r, c)) == Elems(Entries(inv, c)) + Antecedents(imps, imps.Keys, c) {
      if c in raw {
        assert Entries(r, c) == SortDedup(raw[c]);
      }
      OrderAntecedents(imps, order, c);
    }
    r
  }

  /** An order that lists exactly the keys has the same antecedents as the
      keys. */
  lemma OrderAntecedents(imps: Implications, order: seq<string>, c: string)
    requires forall a :: a in order <==> a in imps
    ensures Antecedents(imps, Elems(order), c) == Antecedents(imps, imps.Keys, c)
  {
    assert Elems(order) == imps.Keys;
  }

  /** The inverse does not depend on the order the map happened to be
      visited in. */
  lemma InverseOrderIrrelevant(inv: Implications, imps: Implications, o1: seq<string>, o2: seq<string>)
    requires forall a :: a in o1 <==> a in imps
    requires forall a :: a in o2 <==> a in imps
    ensures ComputeInverse(inv, imps, o1) == ComputeInverse(inv, imps, o2)
  {
    var r1 := ComputeInverse(inv, imps, o1);
    var r2 := ComputeInverse(inv, imps, o2);
    InverseKeysIrrelevant(inv, imps, o1, o2);
    forall c | c in r1 ensures r1[c] == r2[c] {
      InverseEntryIrrelevant(inv, imps, o1, o2, c);
    }
  }

  lemma InverseKeysIrrelevant(inv: Implications, imps: Implications, o1: seq<string>, o2: seq<string>)
    requires forall a :: a in o1 <==> a in imps
    requires forall a :: a in o2 <==> a in imps
    ensures ComputeInverse(inv, imps, o1).Keys == ComputeInverse(inv, imps, o2).Keys
  {
    var r1 := ComputeInverse(inv, imps, o1);
    var r2 := ComputeInverse(inv, imps, o2);
    forall c ensures c in r1 <==> c in r2 {
      assert c in r1 <==> c in inv || exists a :: a in imps && c in imps[a];
    }
  }

  lemma InverseEntryIrrelevant(inv: Implications, imps: Implications, o1: seq<string>, o2: seq<string>, c: string)
    requires forall a :: a in o1 <==> a in imps
    requires forall a :: a in o2 <==> a in imps
    ensures Entries(ComputeInverse(inv, imps, o1), c) == Entries(ComputeInverse(inv, imps, o2), c)
  {
    var r1 := ComputeInverse(inv, imps, o1);
    var r2 := ComputeInverse(inv, imps, o2);
    var e1, e2 := Entries(r1, c), Entries(r2, c);
    assert StrictlySorted(e1) && StrictlySorted(e2);
    assert Elems(e1) == Elems(Entries(inv, c)) + Antecedents(imps, imps.Keys, c);
    SameElemsSorted(e1, e2);
  }

  /** Two strictly sorted lists with the same elements are equal. */
  lemma SameElemsSorted(a: seq<string>, b: seq<string>)
    requires StrictlySorted(a) && StrictlySorted(b) && Elems(a) == Elems(b)
    ensures a == b
  {
    assert forall y :: y in a <==> y in Elems(a);
    assert forall y :: y in b <==> y in Elems(b);
    SortedUnique(a, b);
  }

  /** From an empty inverse, `a` is listed under `c` exactly when `c` is
      among the implications of `a`. */
  lemma InverseFromEmpty(imps: Implications, order: seq<string>, a: string, c: string)
    requires forall x :: x in order <==> x in imps
    ensures a in Entries(ComputeInverse(map[], imps, order), c) <==> c in Entries(imps, a)
  {
    var r := ComputeInverse(map[], imps, order);
    assert Elems(Entries(r, c)) == Antecedents(imps, imps.Keys, c);
    assert a in Entries(r, c) <==> a in Elems(Entries(r, c));
  }

  /** `get_implications`: the stored list, an empty list for a known tag
      without one, and `None` for an unknown tag. */
  function GetImplications(tags: Tags, imps: Implications, t: string): (r: Option<seq<string>>)
    ensures r.Some? <==> t in imps || t in tags
    ensures r.Some? ==> r.value == Entries(imps, t)
  {
    if t in imps then Some(imps[t])
    else if t in tags then Some([])
    else None
  }

  /** `get_implications_including_self`: the same list with `t` appended. */
  function GetImplicationsIncludingSelf(tags: Tags, imps: Implications, t: string): (r: Option<seq<string>>)
    ensures r.Some? <==> GetImplications(tags, imps, t).Some?
    ensures r.Some? ==> r.value == GetImplications(tags, imps, t).value + [t]
  {
    match GetImplications(tags, imps, t)
    case None => None
    case Some(ts) => Some(ts + [t])
  }

  /** `resolve_exact`: a tag resolves to itself, before an alias to its
      target. */
  function ResolveExact(tags: Tags, aliases: Aliases, q: string): (r: Option<string>)
    ensures r.Some? <==> q in tags || q in aliases
    ensures q in tags ==> r == Some(q)
    ensures q !in tags && q in aliases ==> r == Some(aliases[q])
  {
    if q in tags then Some(q)
    else if q in aliases then Some(aliases[q])
    else None
  }

  /** Every alias points at a known tag. */
  ghost predicate AliasesKnown(tags: Tags, aliases: Aliases) {
    forall a :: a in aliases ==> aliases[a] in tags
  }

  /** While every alias points at a known tag, an exact resolution always
      names a known tag. */
  lemma ResolvesToKnown(tags: Tags, aliases: Aliases, q: string)
    requires AliasesKnown(tags, aliases)
    ensures ResolveExact(tags, aliases, q).Some? ==> ResolveExact(tags, aliases, q).value in tags
  {
  }
}

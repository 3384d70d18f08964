/**
 * The Pretty-CLEVR symbol vocabulary: eight color names followed by eight
 * marker glyphs, each numbered by its position (`s2i`), and the inverse
 * numbering (`i2s`).
 *
 * A Python dict built by a comprehension is modelled as the fold of its
 * (key, value) pairs into a map where a later pair overwrites an earlier one
 * with the same key.
 */
module Vocabulary {
  import opened Perms

  const Colors: seq<string> := ["blue", "green", "red", "cyan", "magenta", "yellow", "black", "gray"]
  const Markers: seq<string> := ["o", "v", "^", "<", ">", "s", "P", "X"]

  /** `colors + markers`, the list the numbering enumerates. */
  const Symbols: seq<string> := Colors + Markers

  /** The pairs `(v, i)` for `i, v in enumerate(s)`. */
  function Enumerate<T>(s: seq<T>): seq<(T, nat)> {
    seq(|s|, i requires 0 <= i < |s| => (s[i], i))
  }

  /** `{k: v for (k, v) in pairs}`: the last pair with a given key wins. */
  function DictOf<K, V>(pairs: seq<(K, V)>): map<K, V> {
    if pairs == [] then map[]
    else DictOf(pairs[..|pairs| - 1])[pairs[|pairs| - 1].0 := pairs[|pairs| - 1].1]
  }

  function Swapped<K, V>(pairs: seq<(K, V)>): seq<(V, K)> {
    seq(|pairs|, i requires 0 <= i < |pairs| => (pairs[i].1, pairs[i].0))
  }

  /** `{v: k for k, v in d.items()}` where `items` lists `d.items()` in insertion order. */
  function Invert<K, V>(items: seq<(K, V)>): map<V, K> {
    DictOf(Swapped(items))
  }

  function Keys<K, V>(pairs: seq<(K, V)>): seq<K> {
    seq(|pairs|, i requires 0 <= i < |pairs| => pairs[i].0)
  }

  function Values<K, V>(pairs: seq<(K, V)>): seq<V> {
    seq(|pairs|, i requires 0 <= i < |pairs| => pairs[i].1)
  }

  /** `s2i` of `PrettyClevrGenerator`. */
  const S2I: map<string, nat> := DictOf(Enumerate(Symbols))

  /** `i2s` of `PrettyClevrGenerator`: the inversion of `s2i.items()`, whose insertion order is `Enumerate(Symbols)`. */
  const I2S: map<nat, string> := Invert(Enumerate(Symbols))

  /** Every key of the comprehension is in the dict, and it maps to the value of the last pair with that key. */
  lemma {:induction false} DictOfLastWins<K, V>(pairs: seq<(K, V)>)
    ensures forall k :: k in DictOf(pairs) <==> k in Keys(pairs)
    ensures forall i :: 0 <= i < |pairs| ==>
      pairs[i].0 in DictOf(pairs) &&
      (DictOf(pairs)[pairs[i].0] == pairs[i].1 ||
       exists j :: i < j < |pairs| && pairs[j].0 == pairs[i].0)
    ensures forall k :: k in DictOf(pairs) ==>
      exists i :: 0 <= i < |pairs| && pairs[i] == (k, DictOf(pairs)[k])
  {
    if pairs != [] {
      var front := pairs[..|pairs| - 1];
      DictOfLastWins(front);
      assert Keys(pairs) == Keys(front) + [pairs[|pairs| - 1].0];
      forall k | k in DictOf(pairs)
        ensures exists i :: 0 <= i < |pairs| && pairs[i] == (k, DictOf(pairs)[k])
      {
        if k != pairs[|pairs| - 1].0 {
          assert k in DictOf(front);
          var i :| 0 <= i < |front| && front[i] == (k, DictOf(front)[k]);
          assert pairs[i] == front[i];
        } else {
          assert pairs[|pairs| - 1] == (k, DictOf(pairs)[k]);
        }
      }
    }
  }

  /** With distinct keys, the comprehension holds exactly the pairs: one entry per pair, nothing lost. */
  lemma DictOfDistinct<K, V>(pairs: seq<(K, V)>)
    requires Distinct(Keys(pairs))
    ensures forall i :: 0 <= i < |pairs| ==> pairs[i].0 in DictOf(pairs) && DictOf(pairs)[pairs[i].0] == pairs[i].1
    ensures forall k :: k in DictOf(pairs) <==> k in Keys(pairs)
  {
    DictOfLastWins(pairs);
    forall i | 0 <= i < |pairs|
      ensures DictOf(pairs)[pairs[i].0] == pairs[i].1
    {
      forall j | i < j < |pairs| ensures pairs[j].0 != pairs[i].0 {
        assert Keys(pairs)[i] == pairs[i].0 && Keys(pairs)[j] == pairs[j].0;
      }
    }
  }

  /** The number of entries of a comprehension over pairs with distinct keys is the number of pairs. */
  lemma {:induction false} DictOfSize<K, V>(pairs: seq<(K, V)>)
    requires Distinct(Keys(pairs))
    ensures |DictOf(pairs)| == |pairs|
  {
    if pairs != [] {
      var front := pairs[..|pairs| - 1];
      assert Keys(front) == Keys(pairs)[..|pairs| - 1];
      DictOfSize(front);
      DictOfLastWins(front);
      var last := pairs[|pairs| - 1].0;
      forall i | 0 <= i < |front| ensures Keys(front)[i] != last {
        assert Keys(front)[i] == Keys(pairs)[i] && last == Keys(pairs)[|pairs| - 1];
      }
      assert last !in Keys(front);
      assert DictOf(pairs).Keys == DictOf(front).Keys + {last};
    }
  }

  /**
   * Inverting a dict whose items have distinct keys sends every value to the
   * key that carries it; when the values are distinct as well, the two maps
   * are exact inverses of each other.
   */
  lemma InvertIsInverse<K, V>(items: seq<(K, V)>)
    requires Distinct(Keys(items))
    ensures forall v :: v in Invert(items) <==> v in Values(items)
    ensures forall v :: v in Invert(items) ==>
      Invert(items)[v] in DictOf(items) && DictOf(items)[Invert(items)[v]] == v
    ensures Distinct(Values(items)) ==>
      forall k :: k in DictOf(items) ==> DictOf(items)[k] in Invert(items) && Invert(items)[DictOf(items)[k]] == k
  {
    DictOfDistinct(items);
    var sw := Swapped(items);
    assert Keys(sw) == Values(items);
    DictOfLastWins(sw);
    forall v | v in Invert(items)
      ensures Invert(items)[v] in DictOf(items) && DictOf(items)[Invert(items)[v]] == v
    {
      var i :| 0 <= i < |sw| && sw[i] == (v, Invert(items)[v]);
      assert items[i] == (Invert(items)[v], v);
    }
    if Distinct(Values(items)) {
      DictOfDistinct(sw);
      forall k | k in DictOf(items)
        ensures DictOf(items)[k] in Invert(items) && Invert(items)[DictOf(items)[k]] == k
      {
        DictOfLastWins(items);
        var i :| 0 <= i < |items| && items[i] == (k, DictOf(items)[k]);
        assert sw[i] == (items[i].1, items[i].0);
      }
    }
  }

  lemma SymbolsDistinct()
    ensures Distinct(Symbols)
  {
  }

  /**
   * `s2i` numbers the sixteen symbols `0 .. 15` by their position in
   * `colors + markers`, one-to-one; `i2s` is its exact inverse; and
   * `n_input_output == len(s2i) == 16`.
   */
  lemma VocabularyNumbering()
    ensures |Symbols| == 16 && |S2I| == 16
    ensures forall s :: s in S2I <==> s in Symbols
    ensures forall i :: 0 <= i < 16 ==> Symbols[i] in S2I && S2I[Symbols[i]] == i
    ensures forall i :: i in I2S <==> 0 <= i < 16
    ensures forall i :: 0 <= i < 16 ==> I2S[i] == Symbols[i]
    ensures forall s :: s in S2I ==> S2I[s] in I2S && I2S[S2I[s]] == s
    ensures forall i :: i in I2S ==> I2S[i] in S2I && S2I[I2S[i]] == i
  {
    var items := Enumerate(Symbols);
    SymbolsDistinct();
    assert Keys(items) == Symbols;
    assert Values(items) == seq(16, i requires 0 <= i < 16 => i);
    DictOfDistinct(items);
    DictOfSize(items);
    InvertIsInverse(items);
    forall i | 0 <= i < 16 ensures i in I2S {
      assert Values(items)[i] == i;
    }
    forall i | 0 <= i < 16 ensures I2S[i] == Symbols[i] {
      assert Values(items)[i] == i;
      assert S2I[Symbols[i]] == i;
    }
  }

  /** The symbol at place `i` of `colors + markers` is numbered `i`. */
  lemma SymbolNumber(i: int)
    requires 0 <= i < |Symbols|
    ensures Symbols[i] in S2I && S2I[Symbols[i]] == i
  {
    VocabularyNumbering();
  }
}

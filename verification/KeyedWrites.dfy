// Writing values under text keys into one map, where two variables may share a key.
module KeyedWrites {
  import opened Text

  // The map has exactly the keys of these variables, each with the value of one of them.
  ghost predicate Shows<V(!new)>(out: map<string, string>, vars: set<V>, key: V -> string, value: V -> string) {
    && (forall v :: v in vars ==> key(v) in out)
    && (forall k :: k in out ==> exists v :: v in vars && key(v) == k && out[k] == value(v))
  }

  lemma Assigned<V(!new)>(out: map<string, string>, vars: set<V>, key: V -> string, value: V -> string, v: V)
    requires Shows(out, vars, key, value)
    ensures Shows(out[key(v) := value(v)], vars + {v}, key, value)
  {
    var next := out[key(v) := value(v)];
    forall k | k in next ensures exists w :: w in vars + {v} && key(w) == k && next[k] == value(w) {
      if k == key(v) {
        assert v in vars + {v};
      } else {
        var w :| w in vars && key(w) == k && out[k] == value(w);
        assert w in vars + {v};
      }
    }
  }

  // No two variables have one key.
  ghost predicate NoCollision<V(!new)>(vars: set<V>, key: V -> string) {
    forall v, w :: v in vars && w in vars && key(v) == key(w) ==> v == w
  }

  // Variables with one key have one value.
  ghost predicate CollisionsAgree<V(!new)>(vars: set<V>, key: V -> string, value: V -> string) {
    forall v, w :: v in vars && w in vars && key(v) == key(w) ==> value(v) == value(w)
  }

  // Every variable can be read back.
  ghost predicate Complete<V(!new)>(out: map<string, string>, vars: set<V>, key: V -> string, value: V -> string) {
    forall v :: v in vars ==> key(v) in out && out[key(v)] == value(v)
  }

  lemma CompleteIffAgree<V(!new)>(out: map<string, string>, vars: set<V>, key: V -> string, value: V -> string)
    requires Shows(out, vars, key, value)
    ensures Complete(out, vars, key, value) <==> CollisionsAgree(vars, key, value)
  {
    if CollisionsAgree(vars, key, value) {
      forall v | v in vars ensures out[key(v)] == value(v) {
        var w :| w in vars && key(w) == key(v) && out[key(v)] == value(w);
      }
    }
  }

  // Where colliding variables agree, all maps that show the variables are one.
  lemma OneMap<V(!new)>(out: map<string, string>, other: map<string, string>, vars: set<V>, key: V -> string,
                 value: V -> string)
    requires Shows(out, vars, key, value) && Shows(other, vars, key, value)
    requires CollisionsAgree(vars, key, value)
    ensures out == other
  {
    assert forall k :: k in out ==> k in other;
    assert forall k :: k in other ==> k in out;
    forall k | k in out ensures out[k] == other[k] {
      var v :| v in vars && key(v) == k && out[k] == value(v);
      var w :| w in vars && key(w) == k && other[k] == value(w);
    }
  }

  ghost function KeysOf<V(!new)>(vars: set<V>, key: V -> string): set<string> {
    set v | v in vars :: key(v)
  }

  lemma {:induction false} KeyCount<V(!new)>(vars: set<V>, key: V -> string)
    ensures |KeysOf(vars, key)| <= |vars|
    ensures |KeysOf(vars, key)| == |vars| <==> NoCollision(vars, key)
  {
    if vars != {} {
      var v :| v in vars;
      var rest := vars - {v};
      KeyCount(rest, key);
      assert vars == rest + {v};
      assert KeysOf(vars, key) == KeysOf(rest, key) + {key(v)};
      if key(v) in KeysOf(rest, key) {
        assert KeysOf(vars, key) == KeysOf(rest, key);
        var w :| w in rest && key(w) == key(v);
        assert !NoCollision(vars, key);
      } else {
        forall w, u | w in vars && u in vars && key(w) == key(u) && NoCollision(rest, key) ensures w == u {
          assert w in rest ==> key(w) in KeysOf(rest, key);
          assert u in rest ==> key(u) in KeysOf(rest, key);
        }
      }
    }
  }

  // The map has one entry for each variable exactly when no two share a key.
  lemma Size<V(!new)>(out: map<string, string>, vars: set<V>, key: V -> string, value: V -> string)
    requires Shows(out, vars, key, value)
    ensures |out| <= |vars|
    ensures |out| == |vars| <==> NoCollision(vars, key)
  {
    KeyCount(vars, key);
    assert out.Keys == KeysOf(vars, key);
    assert |out| == |out.Keys|;
  }

  // ---- a sequence of assignments ----

  // What assigning these variables, one after the other, leaves.
  function Written<V>(vars: seq<V>, key: V -> string, value: V -> string): map<string, string> {
    if vars == [] then map[]
    else Written(vars[..|vars| - 1], key, value)[key(vars[|vars| - 1]) := value(vars[|vars| - 1])]
  }

  lemma WrittenOne<V>(vars: seq<V>, key: V -> string, value: V -> string, v: V)
    ensures Written(vars + [v], key, value) == Written(vars, key, value)[key(v) := value(v)]
  {
    assert (vars + [v])[..|vars|] == vars;
  }

  ghost function SetOf<V>(vars: seq<V>): set<V> {
    set v | v in vars
  }

  lemma {:induction false} DistinctSize<V>(vars: seq<V>)
    requires NoRepeats(vars)
    ensures |SetOf(vars)| == |vars|
  {
    if vars != [] {
      var front, last := vars[..|vars| - 1], vars[|vars| - 1];
      DistinctSize(front);
      assert vars == front + [last];
      assert last !in SetOf(front);
      assert SetOf(vars) == SetOf(front) + {last};
    }
  }

  lemma DistinctConcat<V>(a: seq<V>, b: seq<V>)
    requires NoRepeats(a) && NoRepeats(b) && forall v :: v in a ==> v !in b
    ensures NoRepeats(a + b)
  {
    forall i, j | 0 <= i < j < |a + b| ensures (a + b)[i] != (a + b)[j] {
      if i < |a| <= j {
        assert (a + b)[i] == a[i] && (a + b)[j] == b[j - |a|];
        assert a[i] in a && b[j - |a|] in b;
      }
    }
  }

  lemma {:induction false} WrittenShows<V(!new)>(vars: seq<V>, key: V -> string, value: V -> string)
    ensures Shows(Written(vars, key, value), SetOf(vars), key, value)
  {
    if vars != [] {
      var front, last := vars[..|vars| - 1], vars[|vars| - 1];
      WrittenShows(front, key, value);
      Assigned(Written(front, key, value), SetOf(front), key, value, last);
      assert vars == front + [last];
      assert SetOf(vars) == SetOf(front) + {last};
    }
  }

  // The last assignment to a key decides.
  lemma LastWins<V>(front: seq<V>, key: V -> string, value: V -> string, v: V, back: seq<V>)
    requires forall w :: w in back ==> key(w) != key(v)
    ensures key(v) in Written(front + [v] + back, key, value)
    ensures Written(front + [v] + back, key, value)[key(v)] == value(v)
    decreases |back|
  {
    if back == [] {
      WrittenOne(front, key, value, v);
      assert front + [v] + back == front + [v];
    } else {
      var b, last := back[..|back| - 1], back[|back| - 1];
      assert back == b + [last];
      LastWins(front, key, value, v, b);
      WrittenOne(front + [v] + b, key, value, last);
      assert front + [v] + back == front + [v] + b + [last];
    }
  }
}

/** `safe_get_in(d, path)`: follow `path` through nested dictionaries with
    `dict.get`, treating a falsy value like a missing key. */
module SafeGetIn {
  import opened PyRuntime
  import opened MaybeContainer

  /** The dictionary values the model covers: Python ints, strings, None and
      dictionaries keyed by strings. */
  datatype Value = Int(i: int) | Str(s: string) | Null | Dict(entries: map<string, Value>)

  /** Python truthiness: `0`, `""`, `None` and `{}` are falsy. */
  predicate Truthy(v: Value) {
    match v
    case Int(i) => i != 0
    case Str(s) => |s| > 0
    case Null => false
    case Dict(m) => |m| > 0
  }

  /** `d.get(key)`: the value stored under `key`, None when it is missing. */
  function Get(d: map<string, Value>, key: string): (r: Value)
    ensures key in d ==> r == d[key]
    ensures key !in d ==> r == Null
  {
    if key in d then d[key] else Null
  }

  /** The loop of `safe_get_in` from the current value `cur`: each step calls
      `cur.get(key)`, which raises AttributeError when `cur` is not a dictionary. */
  function GetIn(cur: Value, path: seq<string>): (r: Outcome<Maybe<Value>>)
    ensures r.Raised? ==> r.error == AttributeError
    ensures r.Returned? && r.value.Just? ==> Reach(cur, path) == r.value
    decreases |path|
  {
    if |path| == 0 then Returned(Just(cur))
    else if !cur.Dict? then Raised(AttributeError)
    else
      var value := Get(cur.entries, path[0]);
      if Truthy(value) then GetIn(value, path[1..]) else Returned(Nothing)
  }

  /** `safe_get_in(d, path)`. */
  function SafeGetIn(d: map<string, Value>, path: seq<string>): (r: Outcome<Maybe<Value>>)
    ensures |path| == 0 ==> r == Returned(Just(Dict(d)))
    ensures |path| > 0 && !Truthy(Get(d, path[0])) ==> r == Returned(Nothing)
  {
    GetIn(Dict(d), path)
  }

  /** Plain nested lookup, without any truthiness test: the value reached by
      following `path`, if every key is present in a dictionary. */
  function Reach(cur: Value, path: seq<string>): (r: Maybe<Value>)
    decreases |path|
  {
    if |path| == 0 then Just(cur)
    else if cur.Dict? && path[0] in cur.entries then Reach(cur.entries[path[0]], path[1..])
    else Nothing
  }

  /** Every value met after the first `i` keys of the path, for `0 < i <= |path|`,
      is present and truthy. */
  predicate TruthyAlong(cur: Value, path: seq<string>) {
    forall i :: 0 < i <= |path| ==> Reach(cur, path[..i]).Just? && Truthy(Reach(cur, path[..i]).value)
  }

  lemma {:induction false} ReachCons(cur: Value, path: seq<string>, i: nat)
    requires 0 < i <= |path| && cur.Dict? && path[0] in cur.entries
    ensures Reach(cur, path[..i]) == Reach(cur.entries[path[0]], path[1..][..i - 1])
  {
    assert path[..i][1..] == path[1..][..i - 1];
  }

  /** `safe_get_in` returns `Just(v)` exactly when plain lookup reaches `v` and
      every value along the way is truthy. */
  lemma {:induction false} GetInJust(cur: Value, path: seq<string>, v: Value)
    ensures GetIn(cur, path) == Returned(Just(v)) <==> TruthyAlong(cur, path) && Reach(cur, path) == Just(v)
    decreases |path|
  {
    if |path| > 0 {
      if cur.Dict? && path[0] in cur.entries {
        var next := cur.entries[path[0]];
        GetInJust(next, path[1..], v);
        forall i | 0 < i <= |path| {
          ReachCons(cur, path, i);
        }
        assert path[..1] == [path[0]];
        assert Reach(cur, path[..1]) == Reach(next, []);
        if TruthyAlong(cur, path) {
          forall i | 0 < i <= |path[1..]|
            ensures Reach(next, path[1..][..i]).Just? && Truthy(Reach(next, path[1..][..i]).value)
          {
            assert Reach(cur, path[..i + 1]) == Reach(next, path[1..][..i]);
          }
        }
        if Truthy(next) && TruthyAlong(next, path[1..]) {
          forall i | 0 < i <= |path|
            ensures Reach(cur, path[..i]).Just? && Truthy(Reach(cur, path[..i]).value)
          {
            if i > 1 {
              assert Reach(cur, path[..i]) == Reach(next, path[1..][..i - 1]);
            }
          }
        }
      } else {
        assert path[..1] == [path[0]];
        assert Reach(cur, path[..1]).Nothing?;
      }
    }
  }

  /** Following a path that ends in a non-empty dictionary, then following more
      keys from there, is following the concatenated path. */
  lemma {:induction false} GetInAppend(cur: Value, p: seq<string>, q: seq<string>, m: map<string, Value>)
    requires GetIn(cur, p) == Returned(Just(Dict(m)))
    ensures GetIn(cur, p + q) == GetIn(Dict(m), q)
    decreases |p|
  {
    if |p| == 0 {
      assert p + q == q;
    } else {
      assert (p + q)[0] == p[0];
      assert (p + q)[1..] == p[1..] + q;
      GetInAppend(Get(cur.entries, p[0]), p[1..], q, m);
    }
  }

  /** A key that is missing, or present with a falsy value, gives `Nothing` at
      any position of the path, whatever follows it. */
  lemma {:induction false} FalsyStops(d: map<string, Value>, p: seq<string>, key: string, q: seq<string>,
                                      m: map<string, Value>)
    requires GetIn(Dict(d), p) == Returned(Just(Dict(m)))
    requires !Truthy(Get(m, key))
    ensures SafeGetIn(d, p + [key] + q) == Returned(Nothing)
  {
    assert p + [key] + q == p + ([key] + q);
    GetInAppend(Dict(d), p, [key] + q, m);
  }

  /** Continuing past a truthy value that is not a dictionary raises
      AttributeError, at any position of the path. */
  lemma NonDictRaises(d: map<string, Value>, p: seq<string>, m: map<string, Value>, key: string,
                      q: seq<string>)
    requires GetIn(Dict(d), p) == Returned(Just(Dict(m)))
    requires key in m && Truthy(m[key]) && !m[key].Dict?
    requires |q| > 0
    ensures SafeGetIn(d, p + [key] + q) == Raised(AttributeError)
  {
    assert p + [key] + q == p + ([key] + q);
    GetInAppend(Dict(d), p, [key] + q, m);
    assert ([key] + q)[0] == key && ([key] + q)[1..] == q;
  }

  lemma SafeGetInExamples()
    ensures var d := map["a" := Dict(map["b" := Dict(map["c" := Int(42)])])];
            && SafeGetIn(d, ["a", "b", "c"]) == Returned(Just(Int(42)))
            && SafeGetIn(d, ["a", "x"]) == Returned(Nothing)
    ensures SafeGetIn(map["a" := Int(0)], ["a"]) == Returned(Nothing)
    ensures SafeGetIn(map["a" := Str("")], ["a"]) == Returned(Nothing)
    ensures SafeGetIn(map["a" := Dict(map[])], ["a"]) == Returned(Nothing)
  {
    var c := map["c" := Int(42)];
    var b := map["b" := Dict(c)];
    var d := map["a" := Dict(b)];
    var p: seq<string> := ["a", "b", "c"];
    assert p[1..] == ["b", "c"] && p[1..][1..] == ["c"] && p[1..][1..][1..] == [];
    assert GetIn(Dict(c), ["c"]) == Returned(Just(Int(42)));
    assert GetIn(Dict(b), ["b", "c"]) == Returned(Just(Int(42)));
    assert |b| == 1 && |c| == 1;
    var q: seq<string> := ["a", "x"];
    assert q[1..] == ["x"];
    assert GetIn(Dict(b), ["x"]) == Returned(Nothing);
    assert |map["a" := Int(0)]| == 1;
  }
}

/** The run's `variables` object: a name-to-value map that also remembers the order in which
    its names were created, because the final dump lists them in JavaScript's own-key order. */
module VariableStore {
  import opened Types
  import opened Decimal

  datatype Store = Store(values: map<string, Value>, order: seq<string>)

  predicate Distinct(s: seq<string>)
  {
    forall i, j :: 0 <= i < j < |s| ==> s[i] != s[j]
  }

  /** `order` lists every name of the store exactly once, and `__proto__` is never one of
      them. */
  ghost predicate Valid(st: Store)
  {
    Distinct(st.order) && (forall k :: k in st.values <==> k in st.order) && ProtoKey !in st.values
  }

  /** The accessor through which an object's prototype is read and written. */
  const ProtoKey: string := "__proto__"

  /** The members every object inherits from `Object.prototype`. */
  predicate IsObjectPrototypeName(name: string)
  {
    || name == "constructor" || name == "__defineGetter__" || name == "__defineSetter__"
    || name == "hasOwnProperty" || name == "__lookupGetter__" || name == "__lookupSetter__"
    || name == "isPrototypeOf" || name == "propertyIsEnumerable" || name == "toString"
    || name == "valueOf" || name == ProtoKey || name == "toLocaleString"
  }

  /** What `{}[name]` reads when `name` is not an own property: `__proto__` gives
      `Object.prototype` itself, `constructor` the function `Object`, every other inherited
      name the built-in function of that name, and any other name undefined. */
  function Inherited(name: string): (v: Value)
    ensures v == Undefined <==> !IsObjectPrototypeName(name)
  {
    if name == ProtoKey then EmptyObject
    else if name == "constructor" then NativeFunction("Object")
    else if IsObjectPrototypeName(name) then NativeFunction(name)
    else Undefined
  }

  function Empty(): (st: Store)
    ensures Valid(st) && st.values == map[]
  {
    Store(map[], [])
  }

  /** Names that are not variables read what `{}` inherits: `constructor` is the function
      `Object`, `toString` the built-in of that name, and `myVar` is undefined. */
  lemma InheritedNames(st: Store)
    requires "constructor" !in st.values && "toString" !in st.values && "myVar" !in st.values
    ensures Get(st, "constructor") == NativeFunction("Object")
    ensures Get(st, "toString") == NativeFunction("toString")
    ensures Get(st, "myVar") == Undefined
  {
    assert "constructor" != ProtoKey && "toString" != ProtoKey && "toString" != "constructor";
    assert |"myVar"| == 5;
  }

  /** `variables[name]`: the variable's value, or else what the name inherits. */
  function Get(st: Store, name: string): (v: Value)
    ensures name !in st.values ==> (v == Undefined <==> !IsObjectPrototypeName(name))
  {
    if name in st.values then st.values[name] else Inherited(name)
  }

  /** `variables[name] = v`: a new name goes to the end of the creation order, an existing
      name keeps its place. An assignment to `__proto__` creates no variable: the accessor
      ignores a value that is not an object, and re-parenting to `Object.prototype` is no
      change. */
  function Set(st: Store, name: string, v: Value): (r: Store)
    requires Valid(st)
    ensures Valid(r)
    ensures name == ProtoKey ==> r == st
    ensures name != ProtoKey ==> Get(r, name) == v && r.values.Keys == st.values.Keys + {name}
    ensures forall k :: k != name ==> Get(r, k) == Get(st, k)
    ensures name != ProtoKey && name in st.values ==> r.order == st.order
    ensures name != ProtoKey && name !in st.values ==> r.order == st.order + [name]
  {
    if name == ProtoKey then st
    else Store(st.values[name := v], if name in st.values then st.order else st.order + [name])
  }

  function Without(s: seq<string>, name: string): (r: seq<string>)
    ensures forall k :: k in r <==> k in s && k != name
    ensures Distinct(s) ==> Distinct(r)
    ensures |r| <= |s|
  {
    if s == [] then []
    else if s[0] == name then Without(s[1..], name)
    else
      var rest := Without(s[1..], name);
      assert Distinct(s) ==> s[0] !in s[1..] && s[0] !in rest;
      [s[0]] + rest
  }

  /** Removing a name keeps the others in their order: it commutes with concatenation. */
  lemma {:induction false} WithoutAppend(s: seq<string>, t: seq<string>, name: string)
    ensures Without(s + t, name) == Without(s, name) + Without(t, name)
  {
    if s != [] {
      assert (s + t)[0] == s[0] && (s + t)[1..] == s[1..] + t;
      WithoutAppend(s[1..], t, name);
      if s[0] != name {
        ConcatAssoc([s[0]], Without(s[1..], name), Without(t, name));
      }
    } else {
      assert s + t == t;
    }
  }

  /** A name that is not listed leaves the list as it is. */
  lemma {:induction false} WithoutAbsent(s: seq<string>, name: string)
    requires name !in s
    ensures Without(s, name) == s
  {
    if s != [] {
      assert s == [s[0]] + s[1..];
      WithoutAbsent(s[1..], name);
    }
  }

  /** `delete variables[name]`: only that name disappears, the others keep their creation
      order, and the name reads what it inherits again. */
  function Remove(st: Store, name: string): (r: Store)
    requires Valid(st)
    ensures Valid(r)
    ensures name !in r.values && Get(r, name) == Inherited(name)
    ensures forall k :: k != name ==> Get(r, k) == Get(st, k)
    ensures r.values.Keys == st.values.Keys - {name}
    ensures r.order == Without(st.order, name)
  {
    Store(st.values - {name}, Without(st.order, name))
  }

  /** A canonical array index ("0", "17", ... up to 2^32 - 2): such names come first in
      JavaScript's own-key order, in ascending numeric order. */
  predicate IsArrayIndex(k: string)
  {
    |k| > 0 && AllDigits(k) && (k[0] != '0' || |k| == 1) && DigitsValue(k) < 4294967295
  }

  function IndexValue(k: string): nat
  {
    if AllDigits(k) then DigitsValue(k) else 0
  }

  function Insert(k: string, sorted: seq<string>): (r: seq<string>)
    ensures multiset(r) == multiset(sorted) + multiset{k}
    ensures forall x :: x in r ==> x == k || x in sorted
  {
    if sorted == [] || IndexValue(k) <= IndexValue(sorted[0]) then [k] + sorted
    else
      assert sorted == [sorted[0]] + sorted[1..];
      [sorted[0]] + Insert(k, sorted[1..])
  }

  lemma {:induction false} InsertSorted(k: string, sorted: seq<string>)
    requires SortedByIndex(sorted)
    ensures SortedByIndex(Insert(k, sorted))
  {
    if !(sorted == [] || IndexValue(k) <= IndexValue(sorted[0])) {
      var tail := sorted[1..];
      var rest := Insert(k, tail);
      InsertSorted(k, tail);
      forall x | x in tail ensures IndexValue(sorted[0]) <= IndexValue(x) {
        var m :| 0 <= m < |tail| && tail[m] == x;
        assert sorted[m + 1] == x;
      }
      SortedCons(sorted[0], rest);
    }
  }

  lemma SortedCons(x: string, s: seq<string>)
    requires SortedByIndex(s) && forall y :: y in s ==> IndexValue(x) <= IndexValue(y)
    ensures SortedByIndex([x] + s)
  {
    var r := [x] + s;
    forall i, j | 0 <= i < j < |r| ensures IndexValue(r[i]) <= IndexValue(r[j]) {
      assert r[j] == s[j - 1];
      if i > 0 {
        assert r[i] == s[i - 1];
      }
    }
  }

  predicate SortedByIndex(s: seq<string>)
  {
    forall i, j :: 0 <= i < j < |s| ==> IndexValue(s[i]) <= IndexValue(s[j])
  }

  /** Insertion sort by numeric value. */
  function SortByIndex(s: seq<string>): (r: seq<string>)
    ensures multiset(r) == multiset(s)
    ensures SortedByIndex(r)
  {
    if s == [] then []
    else
      assert s == [s[0]] + s[1..];
      InsertSorted(s[0], SortByIndex(s[1..]));
      Insert(s[0], SortByIndex(s[1..]))
  }

  function IndexNames(order: seq<string>): (r: seq<string>)
    ensures forall k :: k in r ==> IsArrayIndex(k)
  {
    if order == [] then []
    else (if IsArrayIndex(order[0]) then [order[0]] else []) + IndexNames(order[1..])
  }

  function OtherNames(order: seq<string>): (r: seq<string>)
    ensures forall k :: k in r ==> !IsArrayIndex(k)
  {
    if order == [] then []
    else (if IsArrayIndex(order[0]) then [] else [order[0]]) + OtherNames(order[1..])
  }

  /** The other names keep the creation order: `OtherNames` commutes with concatenation. */
  lemma {:induction false} OtherNamesAppend(a: seq<string>, b: seq<string>)
    ensures OtherNames(a + b) == OtherNames(a) + OtherNames(b)
  {
    if a == [] {
      assert a + b == b;
    } else {
      assert (a + b)[0] == a[0] && (a + b)[1..] == a[1..] + b;
      OtherNamesAppend(a[1..], b);
      ConcatAssoc(if IsArrayIndex(a[0]) then [] else [a[0]], OtherNames(a[1..]), OtherNames(b));
    }
  }

  lemma {:induction false} IndexNamesAppend(a: seq<string>, b: seq<string>)
    ensures IndexNames(a + b) == IndexNames(a) + IndexNames(b)
  {
    if a == [] {
      assert a + b == b;
    } else {
      assert (a + b)[0] == a[0] && (a + b)[1..] == a[1..] + b;
      IndexNamesAppend(a[1..], b);
      ConcatAssoc(if IsArrayIndex(a[0]) then [a[0]] else [], IndexNames(a[1..]), IndexNames(b));
    }
  }

  /** A new variable whose name is not an array index is listed last by `Object.keys`. */
  lemma NewOtherNameListedLast(st: Store, name: string, v: Value)
    requires Valid(st) && name !in st.values && name != ProtoKey && !IsArrayIndex(name)
    ensures Keys(Set(st, name, v)) == Keys(st) + [name]
  {
    IndexNamesAppend(st.order, [name]);
    OtherNamesAppend(st.order, [name]);
    assert IndexNames([name]) == [] && OtherNames([name]) == [name];
    assert IndexNames(st.order + [name]) == IndexNames(st.order);
    ConcatAssoc(SortByIndex(IndexNames(st.order)), OtherNames(st.order), [name]);
  }

  lemma {:induction false} SplitNames(order: seq<string>)
    ensures multiset(IndexNames(order)) + multiset(OtherNames(order)) == multiset(order)
  {
    if order != [] {
      SplitNames(order[1..]);
      assert order == [order[0]] + order[1..];
    }
  }

  /** `Object.keys(variables)`: array-index names in ascending numeric order, then the other
      names in creation order. */
  function Keys(st: Store): (r: seq<string>)
    ensures multiset(r) == multiset(st.order)
    ensures forall i, j :: 0 <= i < j < |r| && IsArrayIndex(r[j]) ==>
      IsArrayIndex(r[i]) && IndexValue(r[i]) <= IndexValue(r[j])
  {
    var indices := SortByIndex(IndexNames(st.order));
    var others := OtherNames(st.order);
    SplitNames(st.order);
    forall k | k in indices ensures IsArrayIndex(k) {
      assert k in multiset(IndexNames(st.order));
    }
    var r := indices + others;
    assert forall j :: |indices| <= j < |r| ==> r[j] in others;
    r
  }

  /** After the array-index names, `Object.keys` lists the other names in creation order. */
  lemma KeysListOtherNamesInCreationOrder(st: Store)
    ensures var r := Keys(st);
            |OtherNames(st.order)| <= |r| && r[|r| - |OtherNames(st.order)|..] == OtherNames(st.order)
  {
    var r := Keys(st);
    assert r == SortByIndex(IndexNames(st.order)) + OtherNames(st.order);
  }

  lemma DistinctFromMultiset(s: seq<string>, t: seq<string>)
    requires multiset(s) == multiset(t) && Distinct(s)
    ensures Distinct(t)
  {
    forall i, j | 0 <= i < j < |t| ensures t[i] != t[j] {
      if t[i] == t[j] {
        var m := multiset(t[..i]) + multiset{t[i]} + multiset(t[i + 1..j]) + multiset{t[j]} + multiset(t[j + 1..]);
        assert t == t[..i] + [t[i]] + t[i + 1..j] + [t[j]] + t[j + 1..];
        assert multiset(t) == m;
        assert multiset(s)[t[i]] >= 2;
        DistinctCountsOne(s, t[i]);
      }
    }
  }

  lemma {:induction false} DistinctCountsOne(s: seq<string>, x: string)
    requires Distinct(s)
    ensures multiset(s)[x] <= 1
  {
    if s != [] {
      assert s == [s[0]] + s[1..];
      assert Distinct(s[1..]);
      DistinctCountsOne(s[1..], x);
      if s[0] == x {
        assert x !in s[1..];
      }
    }
  }

  /** The dump lists every variable exactly once, and nothing else; array-index names come
      first, in ascending numeric order. */
  lemma KeysListEachVariableOnce(st: Store)
    requires Valid(st)
    ensures multiset(Keys(st)) == multiset(st.order)
    ensures Distinct(Keys(st))
    ensures forall k :: k in Keys(st) <==> k in st.values
    ensures |Keys(st)| == |st.values|
  {
    SplitNames(st.order);
    var ks := Keys(st);
    assert multiset(ks) == multiset(st.order);
    DistinctFromMultiset(st.order, ks);
    forall k ensures k in ks <==> k in st.values {
      assert k in ks <==> k in multiset(ks);
      assert k in st.order <==> k in multiset(st.order);
    }
    DistinctSize(ks, st.values.Keys);
    assert |st.values.Keys| == |st.values|;
  }

  lemma {:induction false} DistinctSize(s: seq<string>, keys: set<string>)
    requires Distinct(s)
    requires forall k :: k in s <==> k in keys
    ensures |s| == |keys|
  {
    if s != [] {
      var rest := s[1..];
      assert Distinct(rest);
      assert s[0] !in rest;
      forall k ensures k in rest <==> k in keys - {s[0]} {
        if k in rest {
          assert k in s;
        }
        if k in keys - {s[0]} {
          assert k in s;
          var i :| 0 <= i < |s| && s[i] == k;
          assert i != 0;
          assert rest[i - 1] == k;
        }
      }
      DistinctSize(rest, keys - {s[0]});
    } else {
      assert forall k :: k !in keys;
      assert keys == {};
    }
  }
}

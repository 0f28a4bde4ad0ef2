/** MATLAB-file specifics: `load_clean_mat`'s conversion of struct objects
    into dicts and lists, and `Mat._sub_select`'s unwrapping of singleton
    arrays. */
module MatFile {
  import opened Wrappers
  import opened Values

  /** `_has_struct`: an array with a struct among its direct elements. */
  predicate HasStruct(v: Value) {
    v.Array? && exists i :: 0 <= i < |v.elems| && v.elems[i].Struct?
  }

  /** Some member is called `name`. */
  predicate HasMember(ms: seq<Member>, name: string) {
    exists i :: 0 <= i < |ms| && ms[i].name == name
  }

  /** `matobj.__dict__[name]`: the value of the last member called `name`
      (a later attribute assignment replaces an earlier one). */
  function MemberValue(ms: seq<Member>, name: string): (r: Value)
    requires HasMember(ms, name)
    ensures exists i :: (0 <= i < |ms| && ms[i].name == name && ms[i].value == r &&
                         forall j :: i < j < |ms| ==> ms[j].name != name)
  {
    var last := ms[|ms| - 1];
    if last.name == name then last.value
    else
      assert HasMember(ms[..|ms| - 1], name) by {
        var i :| 0 <= i < |ms| && ms[i].name == name;
        assert ms[..|ms| - 1][i] == ms[i];
      }
      MemberValue(ms[..|ms| - 1], name)
  }

  /** The dispatch `_check_keys`, `_todict` and `_tolist` all apply to a
      value: a struct becomes a dict (`_todict`), an array holding a struct
      becomes a list (`_tolist`), anything else is kept. */
  function Clean(v: Value): (r: Value)
    ensures v.Struct? ==> r.Map? && forall n :: n in r.entries <==> HasMember(v.members, n)
    ensures HasStruct(v) ==> r.List? && |r.items| == |v.elems|
    ensures HasStruct(v) ==> forall i :: 0 <= i < |v.elems| ==> r.items[i] == Clean(v.elems[i])
    ensures !v.Struct? && !HasStruct(v) ==> r == v
    decreases v, 1
  {
    match v
    case Struct(ms) => Map(MembersToMap(v, |ms|))
    case Array(dims, xs) =>
      if HasStruct(v) then List(seq(|xs|, i requires 0 <= i < |xs| => Clean(xs[i]))) else v
    case _ => v
  }

  /** `_todict` over the first `n` members, in `_fieldnames` order. */
  function MembersToMap(v: Value, n: nat): (r: map<string, Value>)
    requires v.Struct? && n <= |v.members|
    ensures forall k :: k in r <==> HasMember(v.members[..n], k)
    decreases v, 0, n
  {
    if n == 0 then map[]
    else
      var prev := MembersToMap(v, n - 1);
      assert forall k :: HasMember(v.members[..n], k) <==> HasMember(v.members[..n - 1], k) || v.members[n - 1].name == k by {
        forall k ensures HasMember(v.members[..n], k) <==> HasMember(v.members[..n - 1], k) || v.members[n - 1].name == k {
          if HasMember(v.members[..n - 1], k) {
            var i :| 0 <= i < n - 1 && v.members[..n - 1][i].name == k;
            assert v.members[..n][i] == v.members[..n - 1][i];
          }
          if v.members[n - 1].name == k {
            assert v.members[..n][n - 1] == v.members[n - 1];
          }
          if HasMember(v.members[..n], k) {
            var i :| 0 <= i < n && v.members[..n][i].name == k;
            if i < n - 1 {
              assert v.members[..n - 1][i] == v.members[..n][i];
            }
          }
        }
      }
      prev[v.members[n - 1].name := Clean(v.members[n - 1].value)]
  }

  /** Every field of a converted struct holds the converted value of the
      struct's member of that name. */
  lemma {:induction false} StructFieldsConverted(ms: seq<Member>, n: nat, name: string)
    requires n <= |ms| && HasMember(ms[..n], name)
    ensures name in MembersToMap(Struct(ms), n)
    ensures MembersToMap(Struct(ms), n)[name] == Clean(MemberValue(ms[..n], name))
  {
    var v := Struct(ms);
    var pre := ms[..n];
    assert pre[n - 1] == ms[n - 1];
    assert MembersToMap(v, n) == MembersToMap(v, n - 1)[ms[n - 1].name := Clean(ms[n - 1].value)];
    if ms[n - 1].name == name {
      assert MemberValue(pre, name) == ms[n - 1].value;
    } else {
      assert pre[..n - 1] == ms[..n - 1];
      assert HasMember(ms[..n - 1], name) by {
        var i :| 0 <= i < n && pre[i].name == name;
        assert i < n - 1 && ms[..n - 1][i] == pre[i];
      }
      assert MemberValue(pre, name) == MemberValue(ms[..n - 1], name);
      StructFieldsConverted(ms, n - 1, name);
    }
  }

  /** Loader output of `loadmat(..., struct_as_record=False)`: scalars,
      arrays and structs only, with no dict, list or hook object inside. */
  ghost predicate Raw(v: Value) {
    match v
    case Map(_) => false
    case List(_) => false
    case Obj(_, _) => false
    case Array(_, xs) => forall i :: 0 <= i < |xs| ==> Raw(xs[i])
    case Struct(ms) => forall i :: 0 <= i < |ms| ==> Raw(ms[i].value)
    case _ => true
  }

  /** No struct is left where the conversion looks: not at the top, not in a
      produced dict or list, and not directly inside an array. Structs may
      remain deeper inside an array whose direct elements hold none. */
  ghost predicate Tidy(v: Value) {
    match v
    case Struct(_) => false
    case Map(m) => forall k :: k in m ==> Tidy(m[k])
    case List(xs) => forall i :: 0 <= i < |xs| ==> Tidy(xs[i])
    case Array(_, _) => !HasStruct(v)
    case _ => true
  }

  /** Converting a raw MAT value leaves it tidy. */
  lemma {:induction false} CleanIsTidy(v: Value)
    requires Raw(v)
    ensures Tidy(Clean(v))
    decreases v
  {
    match v
    case Struct(ms) =>
      var m := Clean(v).entries;
      forall k | k in m
        ensures Tidy(m[k])
      {
        assert ms[..|ms|] == ms;
        StructFieldsConverted(ms, |ms|, k);
        var i :| 0 <= i < |ms| && ms[i].name == k && ms[i].value == MemberValue(ms, k) &&
          (forall j :: i < j < |ms| ==> ms[j].name != k);
        CleanIsTidy(ms[i].value);
      }
    case Array(_, xs) =>
      if HasStruct(v) {
        forall i | 0 <= i < |xs|
          ensures Tidy(Clean(v).items[i])
        {
          CleanIsTidy(xs[i]);
        }
      }
    case _ =>
  }

  /** `load_clean_mat`: `_check_keys` over the variables of the loaded file. */
  function LoadClean(loaded: Value): (r: Result<Value>)
    ensures loaded.Map? <==> r.Ok?
    ensures r.Ok? ==> r.value.Map? && r.value.entries.Keys == loaded.entries.Keys
    ensures r.Ok? ==> forall k :: k in loaded.entries ==> r.value.entries[k] == Clean(loaded.entries[k])
    ensures r.Err? ==> r.error.TypeError?
  {
    match loaded
    case Map(m) => Ok(Map(map k | k in m :: Clean(m[k])))
    case _ => Err(TypeError("loadmat did not return a dict"))
  }

  /** The largest dimension of a shape (`np.max(shape)`). */
  function MaxDim(dims: seq<nat>): (r: nat)
    requires |dims| > 0
    ensures forall i :: 0 <= i < |dims| ==> dims[i] <= r
    ensures exists i :: 0 <= i < |dims| && dims[i] == r
  {
    if |dims| == 1 then dims[0]
    else
      var m := MaxDim(dims[1..]);
      assert forall i :: 1 <= i < |dims| ==> dims[i] == dims[1..][i - 1];
      if dims[0] >= m then dims[0] else m
  }

  /** An array the unwrapping loop would enter: its largest dimension is 1
      (or it has no dimensions, where `np.max` fails). */
  predicate Wrapped(v: Value) {
    v.Array? && (|v.dims| == 0 || MaxDim(v.dims) == 1)
  }

  /** The loop of `Mat._sub_select`: while the value is an array whose
      largest dimension is 1, take element 0. A 0-d array makes `np.max` of
      an empty shape fail (`ValueError`); an array whose first axis is empty
      has no element 0 (`IndexError`). */
  function Unwrap(v: Value): (r: Result<Value>)
    ensures r.Ok? ==> !Wrapped(r.value)
    ensures !Wrapped(v) ==> r == Ok(v)
    ensures r.Err? ==> r.error.ValueError? || r.error.IndexError?
    decreases v
  {
    if !Wrapped(v) then Ok(v)
    else if |v.dims| == 0 then Err(ValueError("zero-size array to reduction operation maximum"))
    else if |v.elems| == 0 then Err(IndexError("index 0 is out of bounds"))
    else Unwrap(v.elems[0])
  }

  /** `x` wrapped in `n` nested one-element arrays of shape `(1,)`. */
  function Nest(x: Value, n: nat): Value {
    if n == 0 then x else Array([1], [Nest(x, n - 1)])
  }

  /** However deep the singleton nesting, unwrapping yields the value inside. */
  lemma {:induction false} UnwrapNested(x: Value, n: nat)
    requires !Wrapped(x)
    ensures Unwrap(Nest(x, n)) == Ok(x)
  {
    if n > 0 {
      assert MaxDim([1]) == 1;
      UnwrapNested(x, n - 1);
    }
  }

  /** A scalar nested five arrays deep unwraps to the scalar; a length-3
      array is returned unmodified. */
  lemma UnwrapExamples(a: Value, b: Value, c: Value)
    ensures Unwrap(Nest(Scalar(Int(7)), 5)) == Ok(Scalar(Int(7)))
    ensures Unwrap(Array([3], [a, b, c])) == Ok(Array([3], [a, b, c]))
  {
    UnwrapNested(Scalar(Int(7)), 5);
    assert MaxDim([3]) == 3;
  }
}

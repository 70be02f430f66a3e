/** Merging a locale file over the English one. */
module LocaleMerge {
  import opened Basics

  /** `Scalar` stands for text, numbers and booleans, by their source text. */
  datatype Json = Null | Scalar(text: string) | Arr(elems: seq<Json>) | Obj(fields: map<string, Json>)

  /** The entries of an array under their numbers. */
  function Spread(elems: seq<Json>): map<string, Json> {
    if elems == [] then map[]
    else Spread(elems[..|elems| - 1])[Decimal(|elems| - 1) := elems[|elems| - 1]]
  }

  /** What spreading a value copies: the fields of an object, the numbered entries of an array. */
  function Fields(j: Json): map<string, Json> {
    match j
    case Obj(fields) => fields
    case Arr(elems) => Spread(elems)
    case _ => map[]
  }

  /** A value that the merge descends into on the English side. */
  predicate IsContainer(j: Json) {
    j.Obj? || j.Arr?
  }

  function Merge(source: Json, target: Json): Json
    requires target.Obj?
    decreases target
  {
    var base := Fields(source);
    Obj(map k | k in base.Keys + target.fields.Keys ::
          if k !in target.fields then base[k]
          else if target.fields[k].Obj? && k in base && IsContainer(base[k]) then Merge(base[k], target.fields[k])
          else target.fields[k])
  }

  /** The loop over the locale's keys, starting from a copy of the English fields. */
  method DeepMerge(source: Json, target: Json) returns (result: Json)
    requires target.Obj?
    ensures result == Merge(source, target)
    decreases target
  {
    var base := Fields(source);
    var fields := base;
    var keys := target.fields.Keys;
    while keys != {}
      invariant keys <= target.fields.Keys
      invariant fields.Keys == base.Keys + (target.fields.Keys - keys)
      invariant forall k <- fields ::
                  fields[k] == if k in target.fields && k !in keys then Merge(source, target).fields[k] else base[k]
      decreases keys
    {
      var k :| k in keys;
      var v := target.fields[k];
      if v.Obj? && k in base && IsContainer(base[k]) {
        v := DeepMerge(base[k], v);
      }
      fields := fields[k := v];
      keys := keys - {k};
    }
    result := Obj(fields);
  }

  // ---- Paths ----

  function Lookup(j: Json, path: seq<string>): Option<Json>
    decreases |path|
  {
    if path == [] then Some(j)
    else if path[0] in Fields(j) then Lookup(Fields(j)[path[0]], path[1..])
    else None
  }

  /** Going down the path through objects, the locale meets something that is not an object. */
  predicate Settles(j: Json, path: seq<string>)
    decreases |path|
  {
    !j.Obj? || (path != [] && path[0] in j.fields && Settles(j.fields[path[0]], path[1..]))
  }

  /** What the merged file holds at a path, in terms of the two files: the locale's entry where the locale
      settles the path; the merge of the two entries where the locale has an object; the English entry
      everywhere else. */
  function Expected(source: Json, target: Json, path: seq<string>): Option<Json> {
    if Settles(target, path) then Lookup(target, path)
    else
      match Lookup(target, path)
      case None => Lookup(source, path)
      case Some(t) =>
        match Lookup(source, path)
        case Some(s) => if IsContainer(s) && t.Obj? then Some(Merge(s, t)) else Some(t)
        case None => Some(t)
  }

  lemma MergeOverScalar(source: Json, target: Json)
    requires target.Obj? && !IsContainer(source)
    ensures Merge(source, target) == target
  {
    assert Merge(source, target).fields == target.fields;
  }

  lemma ScalarHasNoPaths(j: Json, path: seq<string>)
    requires !IsContainer(j)
    ensures Lookup(j, path) == if path == [] then Some(j) else None
  {
  }

  lemma {:induction false} UnsettledIsObject(j: Json, path: seq<string>)
    requires !Settles(j, path)
    ensures Lookup(j, path).Some? ==> Lookup(j, path).value.Obj?
    decreases |path|
  {
    if path != [] && path[0] in j.fields {
      UnsettledIsObject(j.fields[path[0]], path[1..]);
    }
  }

  /** The merged file is determined path by path. */
  lemma {:induction false} MergeAtPath(source: Json, target: Json, path: seq<string>)
    requires target.Obj?
    ensures Lookup(Merge(source, target), path) == Expected(source, target, path)
    decreases |path|
  {
    if path == [] {
      if !IsContainer(source) {
        MergeOverScalar(source, target);
      }
    } else if path[0] in target.fields {
      var k, rest := path[0], path[1..];
      var t := target.fields[k];
      assert Settles(target, path) == Settles(t, rest) && Lookup(target, path) == Lookup(t, rest);
      if t.Obj? {
        if k in Fields(source) && IsContainer(Fields(source)[k]) {
          MergeAtPath(Fields(source)[k], t, rest);
        } else {
          if k in Fields(source) {
            ScalarHasNoPaths(Fields(source)[k], rest);
          }
          if !Settles(t, rest) {
            UnsettledIsObject(t, rest);
          }
        }
      }
    }
  }

  /** Every value of the locale that is not an object is in the merged file, at its path. */
  lemma {:induction false} LocaleValuesSurvive(source: Json, target: Json, path: seq<string>)
    requires target.Obj? && Lookup(target, path).Some? && !Lookup(target, path).value.Obj?
    ensures Lookup(Merge(source, target), path) == Lookup(target, path)
  {
    MergeAtPath(source, target, path);
    if !Settles(target, path) {
      UnsettledIsObject(target, path);
    }
  }

  /** An English path is kept exactly as it was, unless the locale defines it or settles it on the way. */
  lemma EnglishPathsSurvive(source: Json, target: Json, path: seq<string>)
    requires target.Obj? && Lookup(target, path).None? && !Settles(target, path)
    ensures Lookup(Merge(source, target), path) == Lookup(source, path)
  {
    MergeAtPath(source, target, path);
  }

  // ---- Idempotence ----

  lemma {:induction false} MergeWithItself(j: Json)
    requires j.Obj?
    ensures Merge(j, j) == j
    decreases j
  {
    forall k | k in j.fields && j.fields[k].Obj?
      ensures Merge(j.fields[k], j.fields[k]) == j.fields[k]
    {
      MergeWithItself(j.fields[k]);
    }
    assert Merge(j, j).fields == j.fields;
  }

  /** Merging English into an already merged file changes nothing. */
  lemma {:induction false} MergeIsIdempotent(source: Json, target: Json)
    requires target.Obj?
    ensures Merge(source, Merge(source, target)) == Merge(source, target)
    decreases target
  {
    var base, merged := Fields(source), Merge(source, target);
    forall k | k in merged.fields && merged.fields[k].Obj? && k in base && IsContainer(base[k])
      ensures Merge(base[k], merged.fields[k]) == merged.fields[k]
    {
      if k !in target.fields {
        MergeWithItself(base[k]);
      } else {
        MergeIsIdempotent(base[k], target.fields[k]);
      }
    }
    assert Merge(source, merged).fields == merged.fields;
  }

  // ---- Arrays ----

  /** Merging an object over an English array keeps each entry the object does not define, under its number. */
  lemma ArrayEntriesAreSpread(elems: seq<Json>, target: Json, n: nat)
    requires target.Obj? && n < |elems| && Decimal(n) !in target.fields
    ensures Lookup(Merge(Arr(elems), target), [Decimal(n)]) == Some(elems[n])
  {
    SpreadEntry(elems, n);
    hide Decimal;
    hide Spread;
    assert [Decimal(n)][1..] == [];
  }

  lemma {:induction false} SpreadEntry(elems: seq<Json>, n: nat)
    requires n < |elems|
    ensures Decimal(n) in Spread(elems) && Spread(elems)[Decimal(n)] == elems[n]
  {
    var last := |elems| - 1;
    if n < last {
      SpreadEntry(elems[..last], n);
      DecimalIsInjective();
      hide Decimal;
      assert Decimal(n) != Decimal(last);
    }
  }
}

/**
 * The nested configuration dictionaries of Python/utils/config_manager.py
 * and the dotted-key operations on them: `_get_nested_value`,
 * `_set_nested_value`, `_delete_nested_value` and `ConfigProfile._deep_merge`.
 * A configuration is a tree: a leaf holds a scalar, an inner node a
 * dictionary from key to subtree. Updates produce the new tree.
 */
module ConfigTree {
  import opened Wrappers
  import opened Text

  /**
   * The scalars a configuration holds. `Null` is Python's None. A value that
   * `float()` may read is kept as its text, since floats are not modelled.
   */
  datatype Scalar = Null | Bool(b: bool) | Int(i: int) | Str(s: string) | FloatOrText(text: string)

  datatype Node = Leaf(value: Scalar) | Dict(entries: map<string, Node>)

  type Config = map<string, Node>

  /** A dotted key is split on '.' into its segments. */
  function Segments(key: string): (keys: seq<string>)
    ensures |keys| >= 1
  {
    Split(key, '.')
  }

  // ---------------------------------------------------------------------
  // Reading a path
  // ---------------------------------------------------------------------

  /** The value at the end of `keys`, if every segment names a key of a dictionary. */
  function Lookup(n: Node, keys: seq<string>): (r: Option<Node>)
    ensures r.Some? ==> forall j :: 0 <= j < |keys| ==> Lookup(n, keys[..j]).Some? && Lookup(n, keys[..j]).value.Dict?
    decreases |keys|
  {
    if keys == [] then Some(n)
    else if n.Dict? && keys[0] in n.entries then
      assert forall j :: 1 <= j <= |keys| ==> keys[..j][1..] == keys[1..][..j - 1];
      Lookup(n.entries[keys[0]], keys[1..])
    else None
  }

  /** Whether the value at `p` is present and is a leaf. */
  predicate LeafAt(c: Config, p: seq<string>) {
    Lookup(Dict(c), p).Some? && Lookup(Dict(c), p).value.Leaf?
  }

  /** Two paths part ways: at some position both have a segment, and the segments differ. */
  predicate Diverge(a: seq<string>, b: seq<string>) {
    exists i :: 0 <= i < |a| && i < |b| && a[i] != b[i]
  }

  /**
   * `_get_nested_value`: walk the segments; stop with the default as soon as
   * a segment is missing or a value that is not a dictionary is reached.
   */
  method GetNestedValue(config: Config, key: string, default: Node) returns (r: Node)
    ensures Lookup(Dict(config), Segments(key)).Some? ==> r == Lookup(Dict(config), Segments(key)).value
    ensures Lookup(Dict(config), Segments(key)).None? ==> r == default
  {
    var keys := Segments(key);
    var current := Dict(config);
    var i := 0;
    while i < |keys|
      invariant 0 <= i <= |keys|
      invariant Lookup(Dict(config), keys) == Lookup(current, keys[i..])
    {
      assert keys[i..][1..] == keys[i + 1..];
      if current.Dict? && keys[i] in current.entries {
        current := current.entries[keys[i]];
      } else {
        return default;
      }
      i := i + 1;
    }
    return current;
  }

  // ---------------------------------------------------------------------
  // Writing a path
  // ---------------------------------------------------------------------

  /**
   * The TypeError `_set_nested_value` raises when a segment other than the
   * last one names a value that is not a dictionary.
   */
  datatype SetFault = NotADict

  /** The chain of fresh dictionaries created for segments that are missing. */
  function Nest(keys: seq<string>, v: Node): Node
    decreases |keys|
  {
    if keys == [] then v else Dict(map[keys[0] := Nest(keys[1..], v)])
  }

  /**
   * `_set_nested_value`: create an empty dictionary for every missing
   * intermediate segment, descend, and store the value under the last one.
   */
  function Assign(c: Config, keys: seq<string>, v: Node): (r: Result<Config, SetFault>)
    requires |keys| >= 1
    ensures r.Ok? ==> r.value.Keys == c.Keys + {keys[0]}
    ensures r.Ok? ==> forall k :: k in c && k != keys[0] ==> r.value[k] == c[k]
    decreases |keys|
  {
    var k := keys[0];
    if |keys| == 1 then Ok(c[k := v])
    else if k !in c then Ok(c[k := Nest(keys[1..], v)])
    else match c[k]
      case Leaf(_) => Err(NotADict)
      case Dict(m) =>
        match Assign(m, keys[1..], v)
        case Ok(m') => Ok(c[k := Dict(m')])
        case Err(e) => Err(e)
  }

  lemma {:induction false} NestLookup(keys: seq<string>, v: Node)
    ensures Lookup(Nest(keys, v), keys) == Some(v)
    decreases |keys|
  {
    if keys != [] {
      NestLookup(keys[1..], v);
    }
  }

  lemma {:induction false} NestLookupDiverges(keys: seq<string>, v: Node, other: seq<string>)
    requires Diverge(keys, other)
    ensures Lookup(Nest(keys, v), other) == None
    decreases |keys|
  {
    var i :| 0 <= i < |keys| && i < |other| && keys[i] != other[i];
    if i > 0 {
      assert keys[1..][i - 1] != other[1..][i - 1];
      NestLookupDiverges(keys[1..], v, other[1..]);
    }
  }

  /** A set followed by a get of the same path returns the value just set. */
  lemma {:induction false} LookupAfterAssign(c: Config, keys: seq<string>, v: Node)
    requires |keys| >= 1 && Assign(c, keys, v).Ok?
    ensures Lookup(Dict(Assign(c, keys, v).value), keys) == Some(v)
    decreases |keys|
  {
    var k := keys[0];
    if |keys| > 1 {
      if k !in c {
        NestLookup(keys[1..], v);
      } else {
        LookupAfterAssign(c[k].entries, keys[1..], v);
      }
    }
  }

  /** A set leaves the value at every path that parts ways with the one set. */
  lemma {:induction false} AssignFrame(c: Config, keys: seq<string>, v: Node, other: seq<string>)
    requires |keys| >= 1 && Assign(c, keys, v).Ok? && Diverge(keys, other)
    ensures Lookup(Dict(Assign(c, keys, v).value), other) == Lookup(Dict(c), other)
    decreases |keys|
  {
    var k := keys[0];
    var i :| 0 <= i < |keys| && i < |other| && keys[i] != other[i];
    if other[0] == k {
      assert i > 0;
      assert keys[1..][i - 1] != other[1..][i - 1];
      if k !in c {
        NestLookupDiverges(keys[1..], v, other[1..]);
      } else {
        AssignFrame(c[k].entries, keys[1..], v, other[1..]);
      }
    }
  }

  /**
   * A set fails exactly when one of the segments before the last names a
   * value that is present and is not a dictionary.
   */
  lemma {:induction false} AssignFailsIff(c: Config, keys: seq<string>, v: Node)
    requires |keys| >= 1
    ensures Assign(c, keys, v).Err? <==> exists j :: 1 <= j < |keys| && LeafAt(c, keys[..j])
    decreases |keys|
  {
    var k := keys[0];
    if |keys| > 1 {
      assert keys[..1] == [k];
      if k !in c {
        forall j | 1 <= j < |keys| ensures !LeafAt(c, keys[..j]) {
          assert keys[..j][0] == k;
        }
      } else if c[k].Leaf? {
        assert LeafAt(c, keys[..1]);
      } else {
        var m := c[k].entries;
        AssignFailsIff(m, keys[1..], v);
        forall j | 2 <= j < |keys| ensures LeafAt(c, keys[..j]) == LeafAt(m, keys[1..][..j - 1]) {
          assert keys[..j][0] == k && keys[..j][1..] == keys[1..][..j - 1];
        }
        if Assign(c, keys, v).Err? {
          var j :| 1 <= j < |keys[1..]| && LeafAt(m, keys[1..][..j]);
          assert LeafAt(c, keys[..j + 1]);
        } else {
          forall j | 1 <= j < |keys| ensures !LeafAt(c, keys[..j]) {
            if j == 1 {
              assert Lookup(Dict(c), keys[..1]) == Some(c[k]);
            } else {
              assert LeafAt(c, keys[..j]) == LeafAt(m, keys[1..][..j - 1]);
            }
          }
        }
      }
    }
  }

  // ---------------------------------------------------------------------
  // Deleting a path
  // ---------------------------------------------------------------------

  /**
   * `_delete_nested_value`: `None` is its `False` (a segment missing or a
   * value that is not a dictionary on the way); otherwise the tree without
   * the last key.
   */
  function Remove(c: Config, keys: seq<string>): (r: Option<Config>)
    requires |keys| >= 1
    ensures r.Some? ==> keys[0] in c && r.value.Keys == if |keys| == 1 then c.Keys - {keys[0]} else c.Keys
    ensures r.Some? ==> forall k :: k in c && k != keys[0] ==> r.value[k] == c[k]
    decreases |keys|
  {
    var k := keys[0];
    if |keys| == 1 then (if k in c then Some(c - {k}) else None)
    else if k in c && c[k].Dict? then
      match Remove(c[k].entries, keys[1..])
      case Some(m') => Some(c[k := Dict(m')])
      case None => None
    else None
  }

  /**
   * Delete reports success exactly when the full path existed; the path is
   * gone afterwards and every path that parts ways with it is unchanged.
   */
  lemma {:induction false} RemoveSpec(c: Config, keys: seq<string>, other: seq<string>)
    requires |keys| >= 1
    ensures Remove(c, keys).Some? <==> Lookup(Dict(c), keys).Some?
    ensures Remove(c, keys).Some? ==> Lookup(Dict(Remove(c, keys).value), keys) == None
    ensures Remove(c, keys).Some? && Diverge(keys, other) ==>
      Lookup(Dict(Remove(c, keys).value), other) == Lookup(Dict(c), other)
    decreases |keys|
  {
    var k := keys[0];
    if |keys| > 1 && k in c && c[k].Dict? {
      var m := c[k].entries;
      if |other| >= 1 && other[0] == k && Diverge(keys, other) {
        var i :| 0 <= i < |keys| && i < |other| && keys[i] != other[i];
        assert keys[1..][i - 1] != other[1..][i - 1];
        RemoveSpec(m, keys[1..], other[1..]);
      } else {
        RemoveSpec(m, keys[1..], []);
      }
    }
  }

  // ---------------------------------------------------------------------
  // Deep merge
  // ---------------------------------------------------------------------

  /**
   * `ConfigProfile._deep_merge`: for every key of the update, recurse when
   * both sides hold dictionaries and overwrite otherwise.
   */
  function Merge(base: Config, update: Config): (r: Config)
    ensures r.Keys == base.Keys + update.Keys
    ensures forall k :: k in base && k !in update ==> r[k] == base[k]
    decreases Dict(update)
  {
    map k | k in base.Keys + update.Keys ::
      if k !in update then base[k]
      else if k in base && base[k].Dict? && update[k].Dict? then
        (assert update[k] == Dict(update[k].entries); Dict(Merge(base[k].entries, update[k].entries)))
      else update[k]
  }

  /** Every leaf of the update is found at the same path after the merge. */
  lemma {:induction false} MergeKeepsUpdateLeaves(base: Config, update: Config, keys: seq<string>)
    requires |keys| >= 1 && LeafAt(update, keys)
    ensures Lookup(Dict(Merge(base, update)), keys) == Lookup(Dict(update), keys)
    decreases |keys|
  {
    var k := keys[0];
    if |keys| > 1 && k in base && base[k].Dict? && update[k].Dict? {
      MergeKeepsUpdateLeaves(base[k].entries, update[k].entries, keys[1..]);
    }
  }

  /**
   * A value of the base survives the merge unless the update holds a value
   * at its path or a leaf on the way to it.
   */
  lemma {:induction false} MergeKeepsBase(base: Config, update: Config, keys: seq<string>)
    requires |keys| >= 1 && Lookup(Dict(base), keys).Some?
    requires Lookup(Dict(update), keys).None?
    requires forall j :: 1 <= j < |keys| ==> !LeafAt(update, keys[..j])
    ensures Lookup(Dict(Merge(base, update)), keys) == Lookup(Dict(base), keys)
    decreases |keys|
  {
    var k := keys[0];
    if k in update {
      assert |keys| > 1;
      assert keys[..1] == [k];
      assert !LeafAt(update, keys[..1]);
      assert Lookup(Dict(update), keys[..1]) == Some(update[k]);
      var b := base[k].entries;
      var u := update[k].entries;
      forall j | 1 <= j < |keys[1..]| ensures !LeafAt(u, keys[1..][..j]) {
        assert keys[..j + 1][0] == k && keys[..j + 1][1..] == keys[1..][..j];
        assert !LeafAt(update, keys[..j + 1]);
      }
      MergeKeepsBase(b, u, keys[1..]);
    }
  }

  /** Merging a configuration into itself changes nothing. */
  lemma {:induction false} MergeIdempotent(c: Config)
    ensures Merge(c, c) == c
    decreases Dict(c)
  {
    forall k | k in c ensures Merge(c, c)[k] == c[k] {
      if c[k].Dict? {
        assert c[k] == Dict(c[k].entries);
        MergeIdempotent(c[k].entries);
      }
    }
  }
}

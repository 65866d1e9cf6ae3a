/** The schema check of `warn_keys`: which top-level keys vcvcat does not know. */
module Schema {
  import opened Patch

  predicate NoDuplicates(s: seq<string>)
  {
    forall i, j :: 0 <= i < j < |s| ==> s[i] != s[j]
  }

  /** `r` holds each key of `keys` outside `KnownKeys` as often as `keys`
      does, and no known key. */
  ghost predicate KeepsUnknown(keys: seq<string>, r: seq<string>)
  {
    && (forall k :: multiset(r)[k] == if k in KnownKeys then 0 else multiset(keys)[k])
    && (forall k :: k in r <==> k in keys && k !in KnownKeys)
  }

  /** The keys of a document that are not among `KnownKeys`, in document
      order. Every unknown key appears exactly as often as in the input, a
      known key never; nothing can make the check fail. */
  function UnknownKeys(keys: seq<string>): (r: seq<string>)
    ensures KeepsUnknown(keys, r)
  {
    if keys == [] then []
    else
      var tail := UnknownKeys(keys[1..]);
      assert keys == [keys[0]] + keys[1..];
      if keys[0] in KnownKeys then tail else [keys[0]] + tail
  }

  /** The first key is flagged or not, then the filter goes on with the
      rest. */
  lemma UnknownKeysCons(keys: seq<string>)
    requires keys != []
    ensures UnknownKeys(keys) == UnknownKeys([keys[0]]) + UnknownKeys(keys[1..])
  {
    assert [keys[0]][1..] == [];
  }

  /** The first key of a concatenation with a non-empty first part. */
  lemma UnknownKeysConsAppend(a: seq<string>, b: seq<string>)
    requires a != []
    ensures UnknownKeys(a + b) == UnknownKeys([a[0]]) + UnknownKeys(a[1..] + b)
  {
    var ab := a + b;
    assert ab[1..] == a[1..] + b && ab[0] == a[0];
    UnknownKeysCons(ab);
  }

  /** One step of `UnknownKeysAppend`: from the rest of `a` to `a`. */
  lemma UnknownKeysAppendStep(a: seq<string>, b: seq<string>)
    requires a != []
    requires UnknownKeys(a[1..] + b) == UnknownKeys(a[1..]) + UnknownKeys(b)
    ensures UnknownKeys(a + b) == UnknownKeys(a) + UnknownKeys(b)
  {
    UnknownKeysConsAppend(a, b);
    UnknownKeysCons(a);
  }

  /** The filter works entry by entry and keeps the input order: the unknown
      keys of a concatenation are those of the first part followed by those
      of the second. */
  lemma {:induction false} UnknownKeysAppend(a: seq<string>, b: seq<string>)
    ensures UnknownKeys(a + b) == UnknownKeys(a) + UnknownKeys(b)
  {
    if a == [] {
      assert a + b == b;
    } else {
      UnknownKeysAppend(a[1..], b);
      UnknownKeysAppendStep(a, b);
    }
  }

  /** A single key is flagged exactly when it is unknown. Together with
      `UnknownKeysAppend` this fixes the result entry by entry. */
  lemma UnknownKeysSingle(k: string)
    ensures UnknownKeys([k]) == if k in KnownKeys then [] else [k]
  {
    assert [k][1..] == [];
  }

  /** A dictionary's keys are distinct, so each unknown key is flagged once. */
  lemma {:induction false} UnknownKeysOnce(keys: seq<string>)
    requires NoDuplicates(keys)
    ensures NoDuplicates(UnknownKeys(keys))
  {
    if keys != [] {
      assert NoDuplicates(keys[1..]) by {
        forall i, j | 0 <= i < j < |keys[1..]| ensures keys[1..][i] != keys[1..][j] {
          assert keys[1..][i] == keys[i + 1] && keys[1..][j] == keys[j + 1];
        }
      }
      UnknownKeysOnce(keys[1..]);
      assert keys[0] !in keys[1..];
    }
  }
}

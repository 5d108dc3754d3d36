/**
 * Dictionaries filled by assigning one key after another, as `entry[header] = …` in parseCsv and
 * `catalogueById.set(product.id, product)` in the catalogue load of js/app.js do.
 */
module Maps {

  /** Assigning `values[0]`, `values[1]`, … to `keys[0]`, `keys[1]`, … in turn: a key that occurs
    * twice keeps the value of its last occurrence. */
  function Assign<K, V>(keys: seq<K>, values: seq<V>): map<K, V>
    requires |keys| <= |values|
    decreases |keys|
  {
    if keys == [] then map[]
    else Assign(keys[..|keys| - 1], values)[keys[|keys| - 1] := values[|keys| - 1]]
  }

  /** The keys are the keys assigned. */
  lemma {:induction false} AssignKeys<K, V>(keys: seq<K>, values: seq<V>)
    requires |keys| <= |values|
    ensures Assign(keys, values).Keys == set k | k in keys
    decreases |keys|
  {
    if keys != [] {
      var init := keys[..|keys| - 1];
      AssignKeys(init, values);
      assert keys == init + [keys[|keys| - 1]];
      assert forall k :: k in keys <==> k in init || k == keys[|keys| - 1];
    }
  }

  /** A key holds the value of its last assignment. */
  lemma {:induction false} AssignValue<K, V>(keys: seq<K>, values: seq<V>, i: nat)
    requires |keys| <= |values|
    requires i < |keys| && forall j :: i < j < |keys| ==> keys[j] != keys[i]
    ensures keys[i] in Assign(keys, values) && Assign(keys, values)[keys[i]] == values[i]
    decreases |keys|
  {
    var n := |keys| - 1;
    if i < n {
      AssignValue(keys[..n], values, i);
    }
  }
}

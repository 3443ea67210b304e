/** Filing values under string keys one after another, as the source does
    when it fills a plain object in a loop: a key used twice keeps the value
    assigned last. Shared by the entity table of the sprite-sheet extractor
    and the per-sprite coordinate table of the discrete extractor. */
module Tables {
  /** The assignments `table[keys[i]] = values[i]`, in order, onto acc. */
  function FileAll<V>(keys: seq<string>, values: seq<V>, acc: map<string, V>): map<string, V>
    requires |keys| == |values|
  {
    if |keys| == 0 then acc
    else FileAll(keys[1..], values[1..], acc[keys[0] := values[0]])
  }

  /** Index i is the last one in the list to use its key. */
  predicate LastWithKey(keys: seq<string>, i: int)
    requires 0 <= i < |keys|
  {
    forall j :: i < j < |keys| ==> keys[j] != keys[i]
  }

  /** After the assignments, the keys are the old ones plus every assigned
      key, the last assignment to a key wins, and untouched keys keep their
      value. */
  lemma {:induction false} FileAllFacts<V>(keys: seq<string>, values: seq<V>, acc: map<string, V>)
    requires |keys| == |values|
    ensures FileAll(keys, values, acc).Keys == acc.Keys + set i | 0 <= i < |keys| :: keys[i]
    ensures forall i :: 0 <= i < |keys| && LastWithKey(keys, i) ==> FileAll(keys, values, acc)[keys[i]] == values[i]
    ensures forall k :: k in acc && k !in keys ==> FileAll(keys, values, acc)[k] == acc[k]
    decreases |keys|
  {
    if |keys| > 0 {
      var acc' := acc[keys[0] := values[0]];
      var tk, tv := keys[1..], values[1..];
      FileAllFacts(tk, tv, acc');
      var r := FileAll(keys, values, acc);
      assert r == FileAll(tk, tv, acc');
      var all := set i | 0 <= i < |keys| :: keys[i];
      var later := set i | 0 <= i < |tk| :: tk[i];
      assert all == {keys[0]} + later by {
        forall k | k in all ensures k in {keys[0]} + later {
          var i :| 0 <= i < |keys| && keys[i] == k;
          if i > 0 { assert tk[i - 1] == k; }
        }
      }
      forall i | 0 <= i < |keys| && LastWithKey(keys, i) ensures r[keys[i]] == values[i] {
        if i > 0 {
          assert LastWithKey(tk, i - 1) by {
            forall j | i - 1 < j < |tk| ensures tk[j] != tk[i - 1] {
              assert tk[j] == keys[j + 1];
            }
          }
        } else {
          assert keys[0] !in tk by {
            forall j | 0 <= j < |tk| ensures tk[j] != keys[0] {
              assert tk[j] == keys[j + 1];
            }
          }
        }
      }
    }
  }
}

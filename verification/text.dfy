/** The two string operations the discrete extractor relies on:
    `String.prototype.split(' ')` for the `params` attribute and
    `Array.prototype.join(' ')` for coordinate-table keys. */
module Text {

  /** split(' '): the pieces between single spaces, empty pieces included,
      so that "a  b" has an empty middle piece and "" is one empty piece. */
  function Split(s: string): (parts: seq<string>)
    ensures |parts| >= 1
    ensures forall i :: 0 <= i < |parts| ==> ' ' !in parts[i]
    decreases |s|
  {
    if |s| == 0 then [""]
    else
      var rest := Split(s[1..]);
      if s[0] == ' ' then [""] + rest
      else [[s[0]] + rest[0]] + rest[1..]
  }

  /** join(' '): the pieces with one space between neighbours. */
  function Join(parts: seq<string>): string {
    if |parts| == 0 then ""
    else if |parts| == 1 then parts[0]
    else parts[0] + " " + Join(parts[1..])
  }

  predicate SpaceFree(parts: seq<string>) {
    forall i :: 0 <= i < |parts| ==> ' ' !in parts[i]
  }

  /** Joining the pieces of a split gives the original string back. */
  lemma {:induction false} JoinSplit(s: string)
    ensures Join(Split(s)) == s
    decreases |s|
  {
    if |s| > 0 {
      var rest := Split(s[1..]);
      JoinSplit(s[1..]);
      if s[0] == ' ' {
        assert Split(s) == [""] + rest;
        assert ([""] + rest)[1..] == rest;
        assert Join(Split(s)) == "" + " " + Join(rest);
        assert s == [s[0]] + s[1..];
      } else {
        var parts := [[s[0]] + rest[0]] + rest[1..];
        assert Split(s) == parts;
        if |rest| == 1 {
          assert Join(parts) == [s[0]] + rest[0];
        } else {
          assert parts[1..] == rest[1..];
          assert Join(parts) == ([s[0]] + rest[0]) + " " + Join(rest[1..]);
          assert Join(rest) == rest[0] + " " + Join(rest[1..]);
        }
        assert s == [s[0]] + s[1..];
      }
    }
  }

  /** Splitting a string that starts with a space-free word glues that word
      onto the first piece. */
  lemma {:induction false} SplitAfterWord(w: string, r: string)
    requires ' ' !in w
    ensures Split(w + r) == [w + Split(r)[0]] + Split(r)[1..]
    decreases |w|
  {
    if |w| == 0 {
      assert w + r == r;
      assert w + Split(r)[0] == Split(r)[0];
      assert Split(r) == [Split(r)[0]] + Split(r)[1..];
    } else {
      var w' := w[1..];
      assert ' ' !in w' by {
        forall k | 0 <= k < |w'| ensures w'[k] != ' ' {
          assert w'[k] == w[k + 1];
        }
      }
      SplitAfterWord(w', r);
      assert (w + r)[1..] == w' + r;
      assert (w + r)[0] == w[0];
      assert w[0] != ' ';
      assert [w[0]] + (w' + Split(r)[0]) == w + Split(r)[0];
    }
  }

  /** Splitting a join of space-free pieces gives the pieces back. */
  lemma {:induction false} SplitJoin(parts: seq<string>)
    requires |parts| >= 1
    requires SpaceFree(parts)
    ensures Split(Join(parts)) == parts
    decreases |parts|
  {
    var w := parts[0];
    assert ' ' !in w;
    if |parts| == 1 {
      SplitAfterWord(w, "");
      assert w + "" == w;
      assert w + Split("")[0] == w;
    } else {
      var tail := parts[1..];
      assert SpaceFree(tail) by {
        forall i | 0 <= i < |tail| ensures ' ' !in tail[i] {
          assert tail[i] == parts[i + 1];
        }
      }
      SplitJoin(tail);
      var r := " " + Join(tail);
      assert Join(parts) == w + r;
      SplitAfterWord(w, r);
      assert r[1..] == Join(tail);
      assert Split(r) == [""] + tail;
      assert w + "" == w;
      assert parts == [w] + tail;
    }
  }

  /** Joining space-free pieces is injective: equal keys mean equal pieces. */
  lemma JoinInjective(p: seq<string>, q: seq<string>)
    requires |p| >= 1 && |q| >= 1
    requires SpaceFree(p) && SpaceFree(q)
    ensures Join(p) == Join(q) <==> p == q
  {
    SplitJoin(p);
    SplitJoin(q);
  }
}

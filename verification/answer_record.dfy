/** The quiz's answer map, a JavaScript object with string keys. Its keys
    keep insertion order (which `Object.entries` reports), and assigning to
    an existing key overwrites the value in place. */
module AnswerRecord {
  import opened Wrappers

  datatype Entry = Entry(key: string, value: string)

  type Record = seq<Entry>

  /** The empty object `{}`. */
  const Empty: Record := []

  /** The keys in enumeration order. */
  function Keys(r: Record): (ks: seq<string>)
    ensures |ks| == |r| && forall i :: 0 <= i < |r| ==> ks[i] == r[i].key
  {
    if |r| == 0 then [] else [r[0].key] + Keys(r[1..])
  }

  predicate Has(r: Record, k: string) {
    k in Keys(r)
  }

  predicate Distinct(s: seq<string>) {
    forall i, j :: 0 <= i < j < |s| ==> s[i] != s[j]
  }

  predicate UniqueKeys(r: Record) {
    Distinct(Keys(r))
  }

  /** `r[k]`, or `None` when `k` is not a key of `r`. */
  function Get(r: Record, k: string): (v: Option<string>)
    ensures v.Some? <==> Has(r, k)
    ensures v.Some? ==> Entry(k, v.value) in r
  {
    if |r| == 0 then None
    else if r[0].key == k then Some(r[0].value)
    else
      assert Keys(r) == [r[0].key] + Keys(r[1..]);
      var v := Get(r[1..], k);
      assert v.Some? ==> Entry(k, v.value) in r by {
        if v.Some? {
          var i :| 0 <= i < |r[1..]| && r[1..][i] == Entry(k, v.value);
          assert r[i + 1] == Entry(k, v.value);
        }
      }
      v
  }

  /** With unique keys every entry is what `Get` reports for its key. */
  lemma {:induction false} GetEntry(r: Record, i: nat)
    requires UniqueKeys(r) && i < |r|
    ensures Get(r, r[i].key) == Some(r[i].value)
  {
    if i > 0 {
      assert r[0].key != r[i].key by {
        assert Keys(r)[0] != Keys(r)[i];
      }
      assert r[1..][i - 1] == r[i];
      assert UniqueKeys(r[1..]) by {
        assert Keys(r[1..]) == Keys(r)[1..];
      }
      GetEntry(r[1..], i - 1);
    }
  }

  /** `{...r, [k]: v}`: an existing key keeps its position and takes the
      new value; a new key is appended at the end. */
  function Put(r: Record, k: string, v: string): (r': Record)
    ensures Keys(r') == if Has(r, k) then Keys(r) else Keys(r) + [k]
  {
    if |r| == 0 then [Entry(k, v)]
    else if r[0].key == k then [Entry(k, v)] + r[1..]
    else
      assert Keys(r) == [r[0].key] + Keys(r[1..]);
      var r' := [r[0]] + Put(r[1..], k, v);
      assert r'[1..] == Put(r[1..], k, v);
      r'
  }

  /** Reading `k` back after assigning it gives the assigned value. */
  lemma {:induction false} PutGet(r: Record, k: string, v: string)
    ensures Get(Put(r, k, v), k) == Some(v)
  {
    if |r| > 0 && r[0].key != k {
      PutGet(r[1..], k, v);
      assert ([r[0]] + Put(r[1..], k, v))[1..] == Put(r[1..], k, v);
    }
  }

  /** Assigning `k` leaves every other key's value as it was. */
  lemma {:induction false} PutKeepsOthers(r: Record, k: string, v: string, other: string)
    requires other != k
    ensures Get(Put(r, k, v), other) == Get(r, other)
  {
    if |r| > 0 {
      if r[0].key == k {
        assert ([Entry(k, v)] + r[1..])[1..] == r[1..];
      } else {
        PutKeepsOthers(r[1..], k, v, other);
        assert ([r[0]] + Put(r[1..], k, v))[1..] == Put(r[1..], k, v);
      }
    }
  }

  lemma PutKeepsAllOthers(r: Record, k: string, v: string)
    ensures forall other :: other != k ==> Get(Put(r, k, v), other) == Get(r, other)
  {
    forall other | other != k
      ensures Get(Put(r, k, v), other) == Get(r, other)
    {
      PutKeepsOthers(r, k, v, other);
    }
  }

  /** Assignment never duplicates a key. */
  lemma PutKeepsUniqueKeys(r: Record, k: string, v: string)
    requires UniqueKeys(r)
    ensures UniqueKeys(Put(r, k, v))
  {
    var ks := Keys(r);
    if !Has(r, k) {
      var ks' := ks + [k];
      forall i, j | 0 <= i < j < |ks'|
        ensures ks'[i] != ks'[j]
      {
        if j == |ks| {
          assert ks'[i] == ks[i];
        }
      }
    }
  }
}

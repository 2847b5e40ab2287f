/** Small shared vocabulary: failure-carrying results, the decimal printing of
    numbers used in cell labels and source locations, string joining, and the
    key-ordered dictionary that JavaScript objects behave as. */
module Base {

  datatype Option<+T> = None | Some(value: T)

  datatype Result<+T, +E> = Ok(value: T) | Err(error: E)

  // ---------------------------------------------------------------------------
  // Decimal printing of numbers (what template literals do with an integer)

  function DigitChar(d: nat): char
    requires d < 10
  {
    "0123456789"[d]
  }

  function DigitValue(c: char): nat
    requires IsDigit(c)
  {
    c as int - '0' as int
  }

  predicate IsDigit(c: char)
  {
    '0' <= c <= '9'
  }

  /** Decimal form of a natural number, most significant digit first, no leading zeros. */
  function NatToString(n: nat): (s: string)
    ensures |s| >= 1
    ensures forall i :: 0 <= i < |s| ==> IsDigit(s[i])
    decreases n
  {
    if n < 10 then [DigitChar(n)] else NatToString(n / 10) + [DigitChar(n % 10)]
  }

  /** Reads a non-empty run of decimal digits back as a number. */
  function ParseNat(s: string): (n: nat)
    requires forall i :: 0 <= i < |s| ==> IsDigit(s[i])
  {
    if |s| == 0 then 0 else ParseNat(s[..|s| - 1]) * 10 + DigitValue(s[|s| - 1])
  }

  lemma {:induction false} ParseNatToString(n: nat)
    ensures ParseNat(NatToString(n)) == n
    decreases n
  {
    var s := NatToString(n);
    if n < 10 {
      assert s == [DigitChar(n)];
      assert s[..0] == [];
    } else {
      var p := NatToString(n / 10);
      assert s == p + [DigitChar(n % 10)];
      assert s[..|s| - 1] == p;
      ParseNatToString(n / 10);
    }
  }

  /** Distinct numbers have distinct decimal forms. */
  lemma NatToStringDistinct(i: nat, j: nat)
    requires i != j
    ensures NatToString(i) != NatToString(j)
  {
    ParseNatToString(i);
    ParseNatToString(j);
  }

  /** Decimal form of an integer, with a leading minus for negatives. */
  function IntToString(i: int): string
  {
    if i < 0 then "-" + NatToString(-i) else NatToString(i)
  }

  // ---------------------------------------------------------------------------
  // Sequences of strings

  /** `parts.join(sep)` */
  function Join(parts: seq<string>, sep: string): string
  {
    if |parts| == 0 then ""
    else if |parts| == 1 then parts[0]
    else parts[0] + sep + Join(parts[1..], sep)
  }

  /** Concatenation of a sequence of sequences, in order (`_.flatten` one level deep). */
  function Flatten<T>(ss: seq<seq<T>>): (r: seq<T>)
  {
    if |ss| == 0 then [] else ss[0] + Flatten(ss[1..])
  }

  lemma {:induction false} FlattenAppend<T>(a: seq<seq<T>>, b: seq<seq<T>>)
    ensures Flatten(a + b) == Flatten(a) + Flatten(b)
  {
    if |a| == 0 {
      assert a + b == b;
    } else {
      assert (a + b)[1..] == a[1..] + b;
      FlattenAppend(a[1..], b);
    }
  }

  lemma {:induction false} FlattenMember<T>(ss: seq<seq<T>>, x: T)
    ensures x in Flatten(ss) <==> exists i :: 0 <= i < |ss| && x in ss[i]
  {
    if |ss| > 0 {
      FlattenMember(ss[1..], x);
      if x in Flatten(ss[1..]) {
        var i :| 0 <= i < |ss[1..]| && x in ss[1..][i];
        assert x in ss[i + 1];
      }
      if exists i :: 0 <= i < |ss| && x in ss[i] {
        var i :| 0 <= i < |ss| && x in ss[i];
        if i > 0 {
          assert x in ss[1..][i - 1];
        }
      }
    }
  }

  lemma {:induction false} FlattenLength<T>(ss: seq<seq<T>>, k: nat)
    requires forall i :: 0 <= i < |ss| ==> |ss[i]| == k
    ensures |Flatten(ss)| == |ss| * k
  {
    if |ss| > 0 {
      FlattenLength(ss[1..], k);
    }
  }

  predicate Distinct<T(==)>(s: seq<T>)
  {
    forall i, j :: 0 <= i < j < |s| ==> s[i] != s[j]
  }

  // ---------------------------------------------------------------------------
  // Key-ordered dictionaries: a JavaScript object used as a dictionary keeps
  // its keys in insertion order; assigning to an existing key keeps its place,
  // deleting a key drops it from the order.

  datatype Dict<V> = Dict(keys: seq<string>, entries: map<string, V>)

  ghost predicate DictValid<V>(d: Dict<V>)
  {
    Distinct(d.keys) && (forall k :: k in d.entries <==> k in d.keys)
  }

  function EmptyDict<V>(): (d: Dict<V>)
    ensures DictValid(d) && d.keys == [] && d.entries == map[]
  {
    Dict([], map[])
  }

  /** `obj[k] = v` */
  function DictPut<V>(d: Dict<V>, k: string, v: V): (r: Dict<V>)
    requires DictValid(d)
    ensures DictValid(r)
    ensures r.entries == d.entries[k := v]
    ensures k in d.entries ==> r.keys == d.keys
    ensures k !in d.entries ==> r.keys == d.keys + [k]
  {
    if k in d.entries then Dict(d.keys, d.entries[k := v])
    else Dict(d.keys + [k], d.entries[k := v])
  }

  /** Every occurrence of `k` dropped from `keys`, the others kept in order. */
  function RemoveKey(keys: seq<string>, k: string): (r: seq<string>)
    ensures forall x :: x in r <==> x in keys && x != k
    ensures Distinct(keys) ==> Distinct(r)
  {
    if |keys| == 0 then []
    else
      var rest := RemoveKey(keys[1..], k);
      assert Distinct(keys) ==> keys[0] !in keys[1..];
      assert Distinct(keys) ==> Distinct(keys[1..]) by {
        if Distinct(keys) {
          forall i, j | 0 <= i < j < |keys[1..]| ensures keys[1..][i] != keys[1..][j] {
            assert keys[1..][i] == keys[i + 1] && keys[1..][j] == keys[j + 1];
          }
        }
      }
      (if keys[0] == k then [] else [keys[0]]) + rest
  }

  lemma {:induction false} RemoveKeyAt(keys: seq<string>, i: nat)
    requires Distinct(keys) && i < |keys|
    ensures RemoveKey(keys, keys[i]) == keys[..i] + keys[i + 1..]
  {
    var k := keys[i];
    if i == 0 {
      RemoveKeyAbsent(keys[1..], k);
    } else {
      RemoveKeyAt(keys[1..], i - 1);
      assert keys[1..][i - 1] == k;
      assert keys[1..][..i - 1] == keys[1..i];
      assert keys[1..][i..] == keys[i + 1..];
      assert [keys[0]] + keys[1..i] == keys[..i];
    }
  }

  lemma {:induction false} RemoveKeyAbsent(keys: seq<string>, k: string)
    requires k !in keys
    ensures RemoveKey(keys, k) == keys
  {
    if |keys| > 0 {
      RemoveKeyAbsent(keys[1..], k);
    }
  }

  /** `delete obj[k]` */
  function DictRemove<V>(d: Dict<V>, k: string): (r: Dict<V>)
    requires DictValid(d)
    ensures DictValid(r)
    ensures r.entries == d.entries - {k}
    ensures forall i :: 0 <= i < |d.keys| && d.keys[i] == k ==> r.keys == d.keys[..i] + d.keys[i + 1..]
    ensures k !in d.entries ==> r == d
  {
    if k !in d.keys then
      RemoveKeyAbsent(d.keys, k);
      d
    else
      var r := Dict(RemoveKey(d.keys, k), d.entries - {k});
      assert forall i :: 0 <= i < |d.keys| && d.keys[i] == k ==> r.keys == d.keys[..i] + d.keys[i + 1..] by {
        forall i | 0 <= i < |d.keys| && d.keys[i] == k
          ensures r.keys == d.keys[..i] + d.keys[i + 1..]
        {
          RemoveKeyAt(d.keys, i);
        }
      }
      r
  }

  /** The values of a dictionary in key order (what `_.map(obj, f)` iterates over). */
  function DictValues<V>(d: Dict<V>): (r: seq<V>)
    requires DictValid(d)
    ensures |r| == |d.keys|
    ensures forall i :: 0 <= i < |d.keys| ==> r[i] == d.entries[d.keys[i]]
  {
    seq(|d.keys|, i requires 0 <= i < |d.keys| => d.entries[d.keys[i]])
  }
}

/** Splitting a sequence into consecutive fixed-size groups.

    A model of the `chunk` helper that `gen_paging` calls. Its code is not
    part of this model; it is assumed to give consecutive groups of `k`
    elements, the last group holding the remainder. */
module Chunking {
  import opened Arith

  /** The concatenation of a sequence of sequences, in order. */
  function Flatten<T>(ss: seq<seq<T>>): seq<T>
  {
    if |ss| == 0 then [] else ss[0] + Flatten(ss[1..])
  }

  /** Every group is non-empty and holds at most `k` elements, and every
      group except the last holds exactly `k`. */
  ghost predicate WellChunked<T>(ss: seq<seq<T>>, k: nat)
  {
    && (forall i :: 0 <= i < |ss| ==> 0 < |ss[i]| <= k)
    && (forall i :: 0 <= i < |ss| - 1 ==> |ss[i]| == k)
  }

  /** Consecutive groups of `k` elements of `s`; the last group holds the
      remainder, and no group is empty. */
  function Chunk<T>(s: seq<T>, k: nat): (r: seq<seq<T>>)
    requires k > 0
    ensures WellChunked(r, k)
    decreases |s|
  {
    if |s| == 0 then []
    else if |s| <= k then [s]
    else [s[..k]] + Chunk(s[k..], k)
  }

  /** Flattening the groups gives back `s`, in order. */
  lemma {:induction false} ChunkFlatten<T>(s: seq<T>, k: nat)
    requires k > 0
    ensures Flatten(Chunk(s, k)) == s
    decreases |s|
  {
    var r := Chunk(s, k);
    if |s| == 0 {
      assert r == [];
    } else if |s| <= k {
      assert r == [s];
      assert Flatten(r) == s + Flatten(r[1..]);
      assert r[1..] == [];
    } else {
      var rest := Chunk(s[k..], k);
      assert r == [s[..k]] + rest;
      assert r[0] == s[..k] && r[1..] == rest;
      assert Flatten(r) == s[..k] + Flatten(rest);
      ChunkFlatten(s[k..], k);
      assert s[..k] + s[k..] == s;
    }
  }

  /** The chunking is the only well-chunked split of `s`: any sequence of
      groups that satisfies the size rules and flattens back to `s` is
      exactly `Chunk(s, k)`. */
  lemma {:induction false} ChunkUnique<T>(ss: seq<seq<T>>, s: seq<T>, k: nat)
    requires k > 0
    requires WellChunked(ss, k)
    requires Flatten(ss) == s
    ensures ss == Chunk(s, k)
    decreases |ss|
  {
    if |ss| == 0 {
    } else if |ss| == 1 {
      assert Flatten(ss) == ss[0] + Flatten(ss[1..]);
      assert ss[1..] == [];
      assert s == ss[0];
    } else {
      var rest := ss[1..];
      assert Flatten(rest) == rest[0] + Flatten(rest[1..]);
      assert |ss[0]| == k;
      assert |s| > k;
      assert s[..k] == ss[0];
      assert s[k..] == Flatten(rest);
      assert WellChunked(rest, k) by {
        forall i | 0 <= i < |rest|
          ensures 0 < |rest[i]| <= k
        {
          assert rest[i] == ss[i + 1];
        }
        forall i | 0 <= i < |rest| - 1
          ensures |rest[i]| == k
        {
          assert rest[i] == ss[i + 1];
        }
      }
      ChunkUnique(rest, s[k..], k);
      assert ss == [ss[0]] + rest;
    }
  }

  /** There are exactly `ceil(|s| / k)` groups: one fewer group would
      hold fewer than `|s|` elements, and the groups have room for all. */
  lemma {:induction false} ChunkCount<T>(s: seq<T>, k: nat)
    requires k > 0
    ensures (|Chunk(s, k)| - 1) * k < |s| <= |Chunk(s, k)| * k
    decreases |s|
  {
    if |s| == 0 {
    } else if |s| <= k {
      assert |Chunk(s, k)| == 1;
    } else {
      var c := |Chunk(s[k..], k)|;
      ChunkCount(s[k..], k);
      assert |Chunk(s, k)| == c + 1;
      assert (c + 1) * k == c * k + k;
    }
  }

  /** Past the first group, the chunking of `s` is the chunking of the rest. */
  lemma ChunkUnfold<T>(s: seq<T>, k: nat)
    requires k > 0 && |s| > k
    ensures Chunk(s, k) == [s[..k]] + Chunk(s[k..], k)
  {
  }

  /** Slicing the suffix `s[k..]` is slicing `s` shifted by `k`. */
  lemma SliceShift<T>(s: seq<T>, k: nat, a: nat, b: nat)
    requires k <= |s| && a <= b <= |s| - k
    ensures s[k..][a..b] == s[k + a .. k + b]
  {
  }

  /** The group with index `i`, starting at `start == i * k`, is the window
      `[start, min(start + k, |s|))` of `s`. */
  lemma {:induction false} ChunkWindowAt<T>(s: seq<T>, k: nat, i: nat, start: nat)
    requires k > 0
    requires i < |Chunk(s, k)| && start == i * k
    ensures start < |s|
    ensures Chunk(s, k)[i] == s[start .. Min(start + k, |s|)]
    decreases i
  {
    if |s| <= k {
      assert i == 0 && start == 0;
    } else {
      var t := s[k..];
      ChunkUnfold(s, k);
      if i == 0 {
        assert start == 0;
      } else {
        MulSucc(i, k);
        assert Chunk(s, k)[i] == Chunk(t, k)[i - 1];
        ChunkWindowAt(t, k, i - 1, start - k);
        SliceShift(s, k, start - k, Min(start, |t|));
      }
    }
  }

  /** Group `i` is the window `[i*k, min(i*k + k, |s|))` of `s`. */
  lemma ChunkWindow<T>(s: seq<T>, k: nat, i: nat)
    requires k > 0
    requires i < |Chunk(s, k)|
    ensures i * k < |s|
    ensures Chunk(s, k)[i] == s[i * k .. Min(i * k + k, |s|)]
  {
    ChunkWindowAt(s, k, i, i * k);
  }
}

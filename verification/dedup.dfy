/** `uniq` from the glossary builder: strip every entry, drop the empty
    ones, and keep the first occurrence of each remaining value. */
module Dedup {
  import opened Text

  predicate NoDups<T(==)>(xs: seq<T>) {
    forall i, j :: 0 <= i < j < |xs| ==> xs[i] != xs[j]
  }

  /** An alias as `uniq` emits it: non-empty and without surrounding whitespace. */
  predicate IsClean(x: string) {
    x != [] && IsStripped(x)
  }

  predicate AllClean(xs: seq<string>) {
    forall i :: 0 <= i < |xs| ==> IsClean(xs[i])
  }

  /** Every entry stripped, positions kept. */
  function StripAll(xs: seq<string>): (ys: seq<string>)
    ensures |ys| == |xs|
    ensures forall i :: 0 <= i < |xs| ==> ys[i] == Strip(xs[i])
  {
    seq(|xs|, i requires 0 <= i < |xs| => Strip(xs[i]))
  }

  /** The index of the first occurrence of `y` in `ys`, or `|ys|` when
      there is none. */
  function FirstIndex(ys: seq<string>, y: string): (k: nat)
    ensures k <= |ys|
    ensures k < |ys| ==> ys[k] == y
    ensures forall l :: 0 <= l < k ==> ys[l] != y
  {
    if ys == [] then 0
    else
      var p := ys[..|ys| - 1];
      var k := FirstIndex(p, y);
      assert forall l :: 0 <= l < |p| ==> p[l] == ys[l];
      if k < |p| then k
      else if ys[|p|] == y then |p|
      else |ys|
  }

  /** The second half of `uniq` on already-stripped entries: skip empty
      strings and every value seen before. */
  function Dedupe(ys: seq<string>): (r: seq<string>)
    ensures NoDups(r)
    ensures forall k :: 0 <= k < |r| ==> r[k] != [] && FirstIndex(ys, r[k]) < |ys|
  {
    if ys == [] then []
    else
      var p := ys[..|ys| - 1];
      var u := Dedupe(p);
      var y := ys[|p|];
      assert forall l :: 0 <= l < |p| ==> p[l] == ys[l];
      assert forall k :: 0 <= k < |u| ==> FirstIndex(ys, u[k]) == FirstIndex(p, u[k]);
      if y == [] || y in u then u else u + [y]
  }

  /** `uniq(xs)`. */
  function Uniq(xs: seq<string>): (r: seq<string>)
    ensures NoDups(r)
    ensures AllClean(r)
  {
    var ys := StripAll(xs);
    var r := Dedupe(ys);
    assert forall k :: 0 <= k < |r| ==> IsClean(r[k]) by {
      forall k | 0 <= k < |r| ensures IsClean(r[k]) {
        StripSpec(xs[FirstIndex(ys, r[k])]);
      }
    }
    r
  }

  /** Every non-empty entry of `ys` is kept. */
  lemma {:induction false} DedupeKeepsAll(ys: seq<string>)
    ensures forall i :: 0 <= i < |ys| && ys[i] != [] ==> ys[i] in Dedupe(ys)
  {
    if ys != [] {
      var p := ys[..|ys| - 1];
      DedupeKeepsAll(p);
      assert forall l :: 0 <= l < |p| ==> p[l] == ys[l];
    }
  }

  /** Kept entries appear in the order of their first occurrence. */
  lemma {:induction false} DedupeOrder(ys: seq<string>)
    ensures forall k, l :: 0 <= k < l < |Dedupe(ys)| ==>
              FirstIndex(ys, Dedupe(ys)[k]) < FirstIndex(ys, Dedupe(ys)[l])
  {
    if ys != [] {
      var p := ys[..|ys| - 1];
      DedupeKeepsAll(p);
      DedupeOrder(p);
      assert forall l :: 0 <= l < |p| ==> p[l] == ys[l];
      var u := Dedupe(p);
      var y := ys[|p|];
      assert forall k :: 0 <= k < |u| ==> FirstIndex(ys, u[k]) == FirstIndex(p, u[k]);
      if y != [] && y !in u {
        assert FirstIndex(p, y) == |p| by {
          forall l | 0 <= l < |p| ensures p[l] != y {
            if p[l] != [] { assert p[l] in u; }
          }
        }
        assert FirstIndex(ys, y) == |p|;
        var r := u + [y];
        assert Dedupe(ys) == r;
        forall k, l | 0 <= k < l < |r| ensures FirstIndex(ys, r[k]) < FirstIndex(ys, r[l]) {
          assert r[k] == u[k];
          if l < |u| {
            assert r[l] == u[l];
            assert FirstIndex(p, u[k]) < FirstIndex(p, u[l]);
          }
        }
      } else {
        assert Dedupe(ys) == u;
      }
    }
  }

  /** On duplicate-free entries none of which is empty, `Dedupe` keeps everything. */
  lemma {:induction false} DedupeOfDistinct(ys: seq<string>)
    requires NoDups(ys)
    requires forall k :: 0 <= k < |ys| ==> ys[k] != []
    ensures Dedupe(ys) == ys
  {
    if ys != [] {
      var p := ys[..|ys| - 1];
      assert forall l :: 0 <= l < |p| ==> p[l] == ys[l];
      DedupeOfDistinct(p);
      assert ys[|p|] !in p by {
        forall k | 0 <= k < |p| ensures p[k] != ys[|p|] { assert p[k] == ys[k]; }
      }
      assert p + [ys[|p|]] == ys;
    }
  }

  /** What `uniq` promises: it keeps the stripped form of every entry that
      is not blank, keeps nothing else, and lists the kept values in the
      order of their first occurrence. */
  lemma UniqSpec(xs: seq<string>)
    ensures forall i :: 0 <= i < |xs| && Strip(xs[i]) != [] ==> Strip(xs[i]) in Uniq(xs)
    ensures forall k :: 0 <= k < |Uniq(xs)| ==> exists i :: 0 <= i < |xs| && Strip(xs[i]) == Uniq(xs)[k]
    ensures var ys := StripAll(xs);
            forall k, l :: 0 <= k < l < |Uniq(xs)| ==> FirstIndex(ys, Uniq(xs)[k]) < FirstIndex(ys, Uniq(xs)[l])
  {
    var ys := StripAll(xs);
    var r := Uniq(xs);
    assert r == Dedupe(ys);
    DedupeKeepsAll(ys);
    DedupeOrder(ys);
    forall k | 0 <= k < |r| ensures exists i :: 0 <= i < |xs| && Strip(xs[i]) == r[k] {
      var i := FirstIndex(ys, r[k]);
      assert Strip(xs[i]) == r[k];
    }
  }

  /** An entry that is not blank survives `uniq` in stripped form. */
  lemma UniqKeeps(xs: seq<string>, x: string)
    requires x in xs && Strip(x) != []
    ensures Strip(x) in Uniq(xs)
  {
    UniqSpec(xs);
    var i :| 0 <= i < |xs| && xs[i] == x;
  }

  /** Every value `uniq` returns is the stripped form of an entry. */
  lemma UniqSound(xs: seq<string>, a: string)
    requires a in Uniq(xs)
    ensures exists x :: x in xs && Strip(x) == a
  {
    UniqSpec(xs);
    var k :| 0 <= k < |Uniq(xs)| && Uniq(xs)[k] == a;
    var i :| 0 <= i < |xs| && Strip(xs[i]) == a;
    assert xs[i] in xs;
  }

  /** The loop of `uniq` as written, with its `seen` set, computes `Uniq`. */
  method UniqLoop(xs: seq<string>) returns (out: seq<string>)
    ensures out == Uniq(xs)
  {
    var seen: set<string> := {};
    out := [];
    var i := 0;
    while i < |xs|
      invariant 0 <= i <= |xs|
      invariant out == Dedupe(StripAll(xs[..i]))
      invariant forall y :: y in seen <==> y in out
    {
      var x2 := Strip(xs[i]);
      assert StripAll(xs[..i + 1])[..i] == StripAll(xs[..i]);
      if x2 != [] && x2 !in seen {
        seen := seen + {x2};
        out := out + [x2];
      }
      i := i + 1;
    }
    assert xs[..|xs|] == xs;
  }

  /** On a list that is already clean and duplicate-free, `uniq` is the identity. */
  lemma UniqOfClean(ys: seq<string>)
    requires NoDups(ys) && AllClean(ys)
    ensures Uniq(ys) == ys
  {
    forall k | 0 <= k < |ys| ensures Strip(ys[k]) == ys[k] { StripSpec(ys[k]); }
    assert StripAll(ys) == ys;
    DedupeOfDistinct(ys);
  }

  /** `uniq(uniq(x)) == uniq(x)`. */
  lemma UniqIdempotent(xs: seq<string>)
    ensures Uniq(Uniq(xs)) == Uniq(xs)
  {
    UniqOfClean(Uniq(xs));
  }

  /** Appending an element does not move the first occurrence of anything
      already present. */
  lemma FirstIndexExtend(p: seq<string>, y: string)
    ensures forall x :: x in p ==> FirstIndex(p + [y], x) == FirstIndex(p, x)
    ensures y !in p ==> FirstIndex(p + [y], y) == |p|
  {
    var xs := p + [y];
    assert xs[..|xs| - 1] == p;
  }

  /** `[a for a in xs if a != v]`: keeps every other entry, as often as it
      occurs and in the order of `xs`. */
  function Without(xs: seq<string>, v: string): (r: seq<string>)
    ensures v !in r
    ensures forall x :: x in r <==> x in xs && x != v
    ensures NoDups(xs) ==> NoDups(r)
    ensures AllClean(xs) ==> AllClean(r)
  {
    if xs == [] then []
    else
      var p := xs[..|xs| - 1];
      var last := xs[|xs| - 1];
      var w := Without(p, v);
      assert forall x :: x in xs <==> x in p || x == last by {
        forall x | x in xs ensures x in p || x == last {
          var k :| 0 <= k < |xs| && xs[k] == x;
          if k < |xs| - 1 { assert p[k] == x; }
        }
      }
      assert NoDups(xs) ==> NoDups(p) && last !in p by {
        if NoDups(xs) {
          forall k | 0 <= k < |p| ensures p[k] != last { assert p[k] == xs[k]; }
        }
      }
      if last == v then w else w + [last]
  }

  /** Filtering keeps any order the entries already had with respect to
      their first occurrence in `ys`. */
  lemma {:induction false} WithoutInOrder(xs: seq<string>, v: string, ys: seq<string>)
    requires forall k, l :: 0 <= k < l < |xs| ==> FirstIndex(ys, xs[k]) < FirstIndex(ys, xs[l])
    ensures forall k, l :: 0 <= k < l < |Without(xs, v)| ==>
              FirstIndex(ys, Without(xs, v)[k]) < FirstIndex(ys, Without(xs, v)[l])
  {
    if xs != [] {
      var p := xs[..|xs| - 1];
      var last := xs[|xs| - 1];
      var w := Without(p, v);
      assert forall k, l :: 0 <= k < l < |p| ==> FirstIndex(ys, p[k]) < FirstIndex(ys, p[l]) by {
        forall k, l | 0 <= k < l < |p| ensures FirstIndex(ys, p[k]) < FirstIndex(ys, p[l]) {
          assert p[k] == xs[k] && p[l] == xs[l];
          assert FirstIndex(ys, xs[k]) < FirstIndex(ys, xs[l]);
        }
      }
      WithoutInOrder(p, v, ys);
      if last != v {
        var r := w + [last];
        assert Without(xs, v) == r;
        forall k, l | 0 <= k < l < |r| ensures FirstIndex(ys, r[k]) < FirstIndex(ys, r[l]) {
          assert r[k] == w[k];
          if l == |w| {
            assert w[k] in w;
            var i :| 0 <= i < |p| && p[i] == r[k];
            assert xs[i] == r[k] && xs[|xs| - 1] == r[l];
            assert FirstIndex(ys, xs[i]) < FirstIndex(ys, xs[|xs| - 1]);
          } else {
            assert r[l] == w[l];
            assert FirstIndex(ys, w[k]) < FirstIndex(ys, w[l]);
          }
        }
      }
    }
  }

  /** Filtering a concatenation filters each part: with `Without([x], v)`
      this pins `Without` down as the order-preserving filter. */
  lemma {:induction false} WithoutConcat(a: seq<string>, b: seq<string>, v: string)
    ensures Without(a + b, v) == Without(a, v) + Without(b, v)
    decreases |b|
  {
    if b == [] {
      assert a + b == a;
    } else {
      var c := a + b;
      var bp := b[..|b| - 1];
      var last := b[|b| - 1];
      assert c[..|c| - 1] == a + bp && c[|c| - 1] == last;
      WithoutConcat(a, bp, v);
      var tail := if last == v then [] else [last];
      assert Without(c, v) == Without(a + bp, v) + tail;
      assert Without(b, v) == Without(bp, v) + tail;
      assert Without(a, v) + Without(bp, v) + tail == Without(a, v) + (Without(bp, v) + tail);
    }
  }
}

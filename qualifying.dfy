/**
 * The qualifying keys of an object and the specification functions that every
 * operation of the key view is proved against.
 */
module Qualifying {
  import opened Host

  /** `for...in` visits the enumerable string-keyed properties, own or inherited. */
  predicate ForInVisits(e: Entry)
  {
    e.enumerable && e.key.Str?
  }

  /** The view's guard: skip a key that is not a string or not an own property. */
  predicate GuardSkips(e: Entry)
  {
    !e.key.Str? || !e.own
  }

  /**
   * A property takes part in the view's operations when `for...in` visits it and the
   * guard does not skip it: exactly the string-keyed, own, enumerable properties.
   */
  predicate Qualifies(e: Entry): (b: bool)
    ensures b <==> e.key.Str? && e.own && e.enumerable
  {
    ForInVisits(e) && !GuardSkips(e)
  }

  /** The qualifying keys of `es`, in enumeration order. */
  function QualifyingKeys(es: seq<Entry>): (q: seq<string>)
    ensures |q| <= |es|
  {
    if es == [] then []
    else
      var last := es[|es| - 1];
      var init := QualifyingKeys(es[..|es| - 1]);
      if Qualifies(last) then init + [last.key.name] else init
  }

  /** The qualifying keys as a set, defined directly on the properties. */
  function KeySet(es: seq<Entry>): (r: set<string>)
    ensures forall k :: k in r <==> exists i :: 0 <= i < |es| && Qualifies(es[i]) && es[i].key == Str(k)
  {
    set e | e in es && Qualifies(e) :: e.key.name
  }

  /** The set of elements of a sequence. */
  function Elements(q: seq<string>): set<string>
  {
    set k | k in q
  }

  predicate NoDuplicates(q: seq<string>)
  {
    forall i, j :: 0 <= i < j < |q| ==> q[i] != q[j]
  }

  /** The keys of `q` that satisfy `p`, in order. */
  function FilterKeys(p: string -> bool, q: seq<string>): (r: seq<string>)
    ensures |r| <= |q|
  {
    if q == [] then []
    else
      var init := FilterKeys(p, q[..|q| - 1]);
      if p(q[|q| - 1]) then init + [q[|q| - 1]] else init
  }

  /**
   * The keys a short-circuiting scan passes to its callback: the keys of `q` up to and
   * including the first one on which `stop` holds, or all of `q` when there is none.
   */
  function ScanUntil(stop: string -> bool, q: seq<string>): (t: seq<string>)
    ensures t <= q
  {
    if q == [] then []
    else if stop(q[0]) then [q[0]]
    else [q[0]] + ScanUntil(stop, q[1..])
  }

  /** The state a caller reaches by applying `action` to `s0` and each key of `q` in turn. */
  function FoldKeys<S>(action: (S, string) -> S, s0: S, q: seq<string>): S
  {
    if q == [] then s0 else action(FoldKeys(action, s0, q[..|q| - 1]), q[|q| - 1])
  }

  /** The predicate that holds of no key on which `p` holds. */
  function Not(p: string -> bool): string -> bool
  {
    k => !p(k)
  }

  /** The predicate `_ => true`. */
  function Always(k: string): bool
  {
    true
  }

  /** A callback that records each key it is given. */
  function AppendKey(log: seq<string>, k: string): seq<string>
  {
    log + [k]
  }

  // ---------------------------------------------------------------------------
  // QualifyingKeys

  /** One more property scanned adds its key exactly when it qualifies. */
  lemma KeysStep(es: seq<Entry>, i: nat)
    requires i < |es|
    ensures QualifyingKeys(es[..i + 1])
         == QualifyingKeys(es[..i]) + (if Qualifies(es[i]) then [es[i].key.name] else [])
  {
    assert es[..i + 1][..i] == es[..i];
  }

  lemma {:induction false} KeysAppend(a: seq<Entry>, b: seq<Entry>)
    ensures QualifyingKeys(a + b) == QualifyingKeys(a) + QualifyingKeys(b)
    decreases |b|
  {
    if b == [] {
      assert a + b == a;
    } else {
      var b' := b[..|b| - 1];
      assert (a + b)[..|a + b| - 1] == a + b';
      assert (a + b)[|a + b| - 1] == b[|b| - 1];
      KeysAppend(a, b');
    }
  }

  lemma KeysSplit(es: seq<Entry>, i: nat)
    requires i <= |es|
    ensures QualifyingKeys(es) == QualifyingKeys(es[..i]) + QualifyingKeys(es[i..])
  {
    assert es == es[..i] + es[i..];
    KeysAppend(es[..i], es[i..]);
  }

  /** A key is qualifying exactly when some qualifying property carries it. */
  lemma {:induction false} KeysMembership(es: seq<Entry>, k: string)
    ensures k in QualifyingKeys(es)
        <==> exists i :: 0 <= i < |es| && Qualifies(es[i]) && es[i].key == Str(k)
  {
    if es != [] {
      var n := |es| - 1;
      KeysMembership(es[..n], k);
      if k in QualifyingKeys(es[..n]) {
        var i :| 0 <= i < n && Qualifies(es[..n][i]) && es[..n][i].key == Str(k);
        assert es[i] == es[..n][i];
      }
      if exists i :: 0 <= i < |es| && Qualifies(es[i]) && es[i].key == Str(k) {
        var i :| 0 <= i < |es| && Qualifies(es[i]) && es[i].key == Str(k);
        if i < n {
          assert es[..n][i] == es[i];
        }
      }
    }
  }

  /**
   * The qualifying keys are exactly the keys of the qualifying properties, in the order
   * of the properties: `idx` lists the positions of the qualifying properties, strictly
   * increasing, and the i-th qualifying key is the key at `idx[i]`.
   */
  lemma {:induction false} KeysPositions(es: seq<Entry>) returns (idx: seq<nat>)
    ensures |idx| == |QualifyingKeys(es)|
    ensures forall i :: 0 <= i < |idx| ==>
      idx[i] < |es| && Qualifies(es[idx[i]]) && es[idx[i]].key == Str(QualifyingKeys(es)[i])
    ensures forall i, j :: 0 <= i < j < |idx| ==> idx[i] < idx[j]
    ensures forall n :: 0 <= n < |es| && Qualifies(es[n]) ==> n in idx
  {
    if es == [] {
      idx := [];
    } else {
      var n := |es| - 1;
      var init := es[..n];
      idx := KeysPositions(init);
      assert forall i :: 0 <= i < n ==> es[i] == init[i];
      if Qualifies(es[n]) {
        idx := idx + [n];
      }
    }
  }

  /** Properties that do not qualify never contribute a key. */
  lemma {:induction false} NonQualifyingContributeNothing(es: seq<Entry>)
    requires forall i :: 0 <= i < |es| ==> !Qualifies(es[i])
    ensures QualifyingKeys(es) == []
  {
    if es != [] {
      NonQualifyingContributeNothing(es[..|es| - 1]);
    }
  }

  /**
   * Inserting properties that do not qualify (inherited, non-enumerable or symbol-keyed
   * ones) anywhere into an object leaves its qualifying keys unchanged.
   */
  lemma ExcludedPropertiesIgnored(a: seq<Entry>, extra: seq<Entry>, b: seq<Entry>)
    requires forall i :: 0 <= i < |extra| ==> !Qualifies(extra[i])
    ensures QualifyingKeys(a + extra + b) == QualifyingKeys(a + b)
  {
    NonQualifyingContributeNothing(extra);
    KeysAppend(a + extra, b);
    KeysAppend(a, extra);
    KeysAppend(a, b);
  }

  /** The number of qualifying keys is the number of qualifying properties. */
  lemma {:induction false} KeysCountQualifyingProperties(es: seq<Entry>)
    ensures |QualifyingKeys(es)| == |set i | 0 <= i < |es| && Qualifies(es[i])|
  {
    if es != [] {
      var n := |es| - 1;
      KeysCountQualifyingProperties(es[..n]);
      var before := set i | 0 <= i < n && Qualifies(es[..n][i]);
      var after := set i | 0 <= i < |es| && Qualifies(es[i]);
      assert before == set i | 0 <= i < n && Qualifies(es[i]) by {
        forall i | 0 <= i < n ensures es[..n][i] == es[i] { }
      }
      if Qualifies(es[n]) {
        assert after == before + {n};
      } else {
        assert after == before;
      }
    }
  }

  /** Distinct own keys give distinct qualifying keys. */
  lemma {:induction false} KeysDistinct(es: seq<Entry>)
    requires OwnKeysDistinct(es)
    ensures NoDuplicates(QualifyingKeys(es))
  {
    if es != [] {
      var n := |es| - 1;
      var init := es[..n];
      assert OwnKeysDistinct(init) by {
        forall i, j | 0 <= i < j < |init| ensures init[i] == es[i] && init[j] == es[j] { }
      }
      KeysDistinct(init);
      if Qualifies(es[n]) {
        var k := es[n].key.name;
        KeysMembership(init, k);
      }
    }
  }

  // ---------------------------------------------------------------------------
  // KeySet and Elements

  lemma {:induction false} KeySetIsElementsOfKeys(es: seq<Entry>)
    ensures KeySet(es) == Elements(QualifyingKeys(es))
  {
    forall k ensures k in KeySet(es) <==> k in Elements(QualifyingKeys(es)) {
      KeysMembership(es, k);
      if k in KeySet(es) {
        var e :| e in es && Qualifies(e) && e.key.name == k;
        var i :| 0 <= i < |es| && es[i] == e;
      }
    }
  }

  lemma {:induction false} ElementsBound(q: seq<string>)
    ensures |Elements(q)| <= |q|
    ensures NoDuplicates(q) ==> |Elements(q)| == |q|
  {
    if q != [] {
      var n := |q| - 1;
      ElementsBound(q[..n]);
      assert q == q[..n] + [q[n]];
      assert Elements(q) == Elements(q[..n]) + {q[n]};
      if NoDuplicates(q) {
        assert NoDuplicates(q[..n]);
        assert q[n] !in Elements(q[..n]);
      }
    }
  }

  /**
   * The set of qualifying keys is the set of elements of `filter(_ => true)`, it has at
   * most as many elements as there are qualifying keys, and exactly as many when the
   * object's own keys are distinct (as they are in every JavaScript object).
   */
  lemma KeySetMatchesKeys(es: seq<Entry>)
    ensures KeySet(es) == Elements(FilterKeys(Always, QualifyingKeys(es)))
    ensures |KeySet(es)| <= |QualifyingKeys(es)|
    ensures OwnKeysDistinct(es) ==> |KeySet(es)| == |QualifyingKeys(es)|
  {
    KeySetIsElementsOfKeys(es);
    FilterAlways(QualifyingKeys(es));
    ElementsBound(QualifyingKeys(es));
    if OwnKeysDistinct(es) {
      KeysDistinct(es);
    }
  }

  // ---------------------------------------------------------------------------
  // FilterKeys

  lemma FilterStep(p: string -> bool, q: seq<string>, k: string)
    ensures FilterKeys(p, q + [k]) == FilterKeys(p, q) + (if p(k) then [k] else [])
  {
  }

  /** A key is kept exactly when it is in the input and satisfies `p`. */
  lemma {:induction false} FilterMembership(p: string -> bool, q: seq<string>, k: string)
    ensures k in FilterKeys(p, q) <==> k in q && p(k)
  {
    if q != [] {
      var n := |q| - 1;
      FilterMembership(p, q[..n], k);
      assert q == q[..n] + [q[n]];
    }
  }

  /** `filter(_ => true)` returns every qualifying key, in order. */
  lemma {:induction false} FilterAlways(q: seq<string>)
    ensures FilterKeys(Always, q) == q
  {
    if q != [] {
      FilterAlways(q[..|q| - 1]);
    }
  }

  /**
   * The filter keeps exactly the keys on which `p` holds, in their order: `idx` lists the
   * positions of `q` on which `p` holds, strictly increasing, and the i-th kept key is the
   * key at `idx[i]`.
   */
  lemma {:induction false} FilterPositions(p: string -> bool, q: seq<string>) returns (idx: seq<nat>)
    ensures |idx| == |FilterKeys(p, q)|
    ensures forall i :: 0 <= i < |idx| ==> idx[i] < |q| && q[idx[i]] == FilterKeys(p, q)[i]
    ensures forall i, j :: 0 <= i < j < |idx| ==> idx[i] < idx[j]
    ensures forall n :: 0 <= n < |q| ==> (n in idx <==> p(q[n]))
  {
    if q == [] {
      idx := [];
    } else {
      var n := |q| - 1;
      var init := q[..n];
      idx := FilterPositions(p, init);
      assert forall i :: 0 <= i < n ==> q[i] == init[i];
      if p(q[n]) {
        idx := idx + [n];
      }
    }
  }

  /** Some key satisfies `p` exactly when the filter by `p` is not empty. */
  lemma SomeIffFilterNonEmpty(p: string -> bool, q: seq<string>)
    ensures (exists j :: 0 <= j < |q| && p(q[j])) <==> FilterKeys(p, q) != []
  {
    if FilterKeys(p, q) != [] {
      FilterMembership(p, q, FilterKeys(p, q)[0]);
    }
    if exists j :: 0 <= j < |q| && p(q[j]) {
      var j :| 0 <= j < |q| && p(q[j]);
      FilterMembership(p, q, q[j]);
    }
  }

  /** Every key satisfies `p` exactly when the filter by `p` keeps every key. */
  lemma {:induction false} EveryIffFilterKeepsAll(p: string -> bool, q: seq<string>)
    ensures (forall j :: 0 <= j < |q| ==> p(q[j])) <==> FilterKeys(p, q) == q
  {
    if FilterKeys(p, q) == q {
      forall j | 0 <= j < |q| ensures p(q[j]) {
        FilterMembership(p, q, q[j]);
      }
    }
    if q != [] && forall j :: 0 <= j < |q| ==> p(q[j]) {
      var n := |q| - 1;
      assert forall j :: 0 <= j < n ==> q[..n][j] == q[j];
      EveryIffFilterKeepsAll(p, q[..n]);
      assert q == q[..n] + [q[n]];
    }
  }

  // ---------------------------------------------------------------------------
  // ScanUntil

  /**
   * The scan passes every key up to and including the first on which `stop` holds, and
   * no later one: every key it passes but the last fails `stop`; its last key satisfies
   * `stop` exactly when some key does; and when none does it passes all the keys.
   */
  lemma {:induction false} ScanUntilCharacterization(stop: string -> bool, q: seq<string>)
    ensures forall j :: 0 <= j < |ScanUntil(stop, q)| - 1 ==> !stop(ScanUntil(stop, q)[j])
    ensures (exists j :: 0 <= j < |q| && stop(q[j]))
        <==> ScanUntil(stop, q) != [] && stop(ScanUntil(stop, q)[|ScanUntil(stop, q)| - 1])
    ensures (forall j :: 0 <= j < |q| ==> !stop(q[j])) ==> ScanUntil(stop, q) == q
  {
    if q != [] && !stop(q[0]) {
      var rest := q[1..];
      ScanUntilCharacterization(stop, rest);
      var t := ScanUntil(stop, q);
      assert t == [q[0]] + ScanUntil(stop, rest);
      if exists j :: 0 <= j < |q| && stop(q[j]) {
        var j :| 0 <= j < |q| && stop(q[j]);
        assert rest[j - 1] == q[j];
      }
      if exists j :: 0 <= j < |rest| && stop(rest[j]) {
        var j :| 0 <= j < |rest| && stop(rest[j]);
        assert q[j + 1] == rest[j];
      }
    }
  }

  /** A scan over keys none of which stops it passes all of them. */
  lemma {:induction false} ScanNoneStops(stop: string -> bool, q: seq<string>)
    requires forall j :: 0 <= j < |q| ==> !stop(q[j])
    ensures ScanUntil(stop, q) == q
  {
    if q != [] {
      ScanNoneStops(stop, q[1..]);
    }
  }

  /** A scan stops at the first key that stops it. */
  lemma {:induction false} ScanStopsAt(stop: string -> bool, a: seq<string>, k: string, b: seq<string>)
    requires forall j :: 0 <= j < |a| ==> !stop(a[j])
    requires stop(k)
    ensures ScanUntil(stop, a + [k] + b) == a + [k]
  {
    if a == [] {
      assert ([k] + b)[0] == k;
    } else {
      assert (a + [k] + b)[1..] == a[1..] + [k] + b;
      ScanStopsAt(stop, a[1..], k, b);
    }
  }

  /**
   * The step a scanning loop takes when the key it has just passed stops it: the keys
   * passed so far are what `ScanUntil` predicts for the whole object.
   */
  lemma ScanHit(stop: string -> bool, es: seq<Entry>, i: nat, passed: seq<string>, k: string)
    requires i <= |es|
    requires QualifyingKeys(es[..i]) == passed + [k]
    requires forall j :: 0 <= j < |passed| ==> !stop(passed[j])
    requires stop(k)
    ensures |passed| < |QualifyingKeys(es)| && QualifyingKeys(es)[|passed|] == k
    ensures ScanUntil(stop, QualifyingKeys(es)) == passed + [k]
  {
    KeysSplit(es, i);
    var rest := QualifyingKeys(es[i..]);
    assert QualifyingKeys(es) == passed + [k] + rest;
    ScanStopsAt(stop, passed, k, rest);
  }

  // ---------------------------------------------------------------------------
  // FoldKeys

  /** `forEach` passes every key exactly once, in order: a recording callback logs them all. */
  lemma {:induction false} FoldRecordsEveryKey(log: seq<string>, q: seq<string>)
    ensures FoldKeys(AppendKey, log, q) == log + q
  {
    if q != [] {
      var n := |q| - 1;
      FoldRecordsEveryKey(log, q[..n]);
      assert q == q[..n] + [q[n]];
    }
  }

  lemma FoldStep<S>(action: (S, string) -> S, s0: S, q: seq<string>, k: string)
    ensures FoldKeys(action, s0, q + [k]) == action(FoldKeys(action, s0, q), k)
  {
  }
}

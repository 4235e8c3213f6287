/**
 * The key view of src/index.js: a class holding a reference to a JavaScript object
 * whose operations scan that object's properties afresh on every call, skip the ones
 * that do not qualify and answer one query over the rest.  Callbacks are pure
 * functions; each operation that takes one also returns, as a ghost value, the list
 * of keys it passed to the callback, in order.
 */
module FastKeysView {
  import opened Host
  import opened Qualifying
  import Wrappers

  /** The error `K` throws. */
  datatype TypeError = TypeError(message: string)

  const NullOrUndefinedMessage := "Cannot convert undefined or null to object"

  class FastKeys {
    /** The wrapped object; the view never changes it (no method has a modifies clause). */
    const host: JsObject

    constructor (host: JsObject)
      ensures this.host == host
    {
      this.host := host;
    }

    /** The qualifying keys of the wrapped object as it is now. */
    function Keys(): seq<string>
      reads host
    {
      QualifyingKeys(host.properties)
    }

    /** The `length` getter: the number of qualifying keys. */
    method Length() returns (length: nat)
      ensures length == |Keys()|
    {
      var es := host.properties;
      length := 0;
      var i := 0;
      while i < |es|
        invariant 0 <= i <= |es|
        invariant length == |QualifyingKeys(es[..i])|
      {
        var e := es[i];
        KeysStep(es, i);
        i := i + 1;
        if !Qualifies(e) {
          continue;
        }
        length := length + 1;
      }
      assert es[..i] == es;
    }

    /** `some`: whether some qualifying key satisfies `p`, stopping at the first that does. */
    method Some(p: string -> bool) returns (found: bool, ghost trace: seq<string>)
      ensures found <==> exists j :: 0 <= j < |Keys()| && p(Keys()[j])
      ensures trace == ScanUntil(p, Keys())
    {
      var es := host.properties;
      trace := [];
      var i := 0;
      while i < |es|
        invariant 0 <= i <= |es|
        invariant trace == QualifyingKeys(es[..i])
        invariant forall j :: 0 <= j < |trace| ==> !p(trace[j])
      {
        var e := es[i];
        KeysStep(es, i);
        i := i + 1;
        if !Qualifies(e) {
          continue;
        }
        var key := e.key.name;
        if p(key) {
          ScanHit(p, es, i, trace, key);
          assert Keys()[|trace|] == key;
          trace := trace + [key];
          found := true;
          return;
        }
        trace := trace + [key];
      }
      assert es[..i] == es;
      ScanNoneStops(p, trace);
      found := false;
    }

    /** `map`: `f` applied to each qualifying key, in order. */
    method Map<A>(f: string -> A) returns (result: seq<A>, ghost trace: seq<string>)
      ensures |result| == |Keys()|
      ensures forall j :: 0 <= j < |result| ==> result[j] == f(Keys()[j])
      ensures trace == Keys()
    {
      var es := host.properties;
      result := [];
      trace := [];
      var i := 0;
      while i < |es|
        invariant 0 <= i <= |es|
        invariant trace == QualifyingKeys(es[..i])
        invariant |result| == |trace|
        invariant forall j :: 0 <= j < |result| ==> result[j] == f(trace[j])
      {
        var e := es[i];
        KeysStep(es, i);
        i := i + 1;
        if !Qualifies(e) {
          continue;
        }
        var key := e.key.name;
        result := result + [f(key)];
        trace := trace + [key];
      }
      assert es[..i] == es;
    }

    /** `toSet`: the set of qualifying keys. */
    method ToSet() returns (keys: set<string>)
      ensures keys == KeySet(host.properties)
    {
      var es := host.properties;
      keys := {};
      var i := 0;
      while i < |es|
        invariant 0 <= i <= |es|
        invariant keys == Elements(QualifyingKeys(es[..i]))
      {
        var e := es[i];
        KeysStep(es, i);
        i := i + 1;
        if !Qualifies(e) {
          continue;
        }
        keys := keys + {e.key.name};
      }
      assert es[..i] == es;
      KeySetIsElementsOfKeys(es);
    }

    /** `every`: whether all qualifying keys satisfy `p`, stopping at the first that does not. */
    method Every(p: string -> bool) returns (all: bool, ghost trace: seq<string>)
      ensures all <==> forall j :: 0 <= j < |Keys()| ==> p(Keys()[j])
      ensures trace == ScanUntil(Not(p), Keys())
    {
      var es := host.properties;
      trace := [];
      var i := 0;
      while i < |es|
        invariant 0 <= i <= |es|
        invariant trace == QualifyingKeys(es[..i])
        invariant forall j :: 0 <= j < |trace| ==> p(trace[j])
      {
        var e := es[i];
        KeysStep(es, i);
        i := i + 1;
        if !Qualifies(e) {
          continue;
        }
        var key := e.key.name;
        if !p(key) {
          ScanHit(Not(p), es, i, trace, key);
          assert Keys()[|trace|] == key;
          trace := trace + [key];
          all := false;
          return;
        }
        trace := trace + [key];
      }
      assert es[..i] == es;
      ScanNoneStops(Not(p), trace);
      all := true;
    }

    /** `filter`: the qualifying keys that satisfy `p`, in order. */
    method Filter(p: string -> bool) returns (kept: seq<string>, ghost trace: seq<string>)
      ensures kept == FilterKeys(p, Keys())
      ensures trace == Keys()
    {
      var es := host.properties;
      kept := [];
      trace := [];
      var i := 0;
      while i < |es|
        invariant 0 <= i <= |es|
        invariant trace == QualifyingKeys(es[..i])
        invariant kept == FilterKeys(p, trace)
      {
        var e := es[i];
        KeysStep(es, i);
        i := i + 1;
        if !Qualifies(e) {
          continue;
        }
        var key := e.key.name;
        FilterStep(p, trace, key);
        if p(key) {
          kept := kept + [key];
        }
        trace := trace + [key];
      }
      assert es[..i] == es;
    }

    /**
     * `forEach`: calls `action` once per qualifying key, in order.  The callback acts by
     * side effect; here that effect is a caller state `s0` which each call updates.
     */
    method ForEach<S>(action: (S, string) -> S, s0: S) returns (s: S, ghost trace: seq<string>)
      ensures s == FoldKeys(action, s0, Keys())
      ensures trace == Keys()
    {
      var es := host.properties;
      s := s0;
      trace := [];
      var i := 0;
      while i < |es|
        invariant 0 <= i <= |es|
        invariant trace == QualifyingKeys(es[..i])
        invariant s == FoldKeys(action, s0, trace)
      {
        var e := es[i];
        KeysStep(es, i);
        i := i + 1;
        if !Qualifies(e) {
          continue;
        }
        var key := e.key.name;
        FoldStep(action, s0, trace, key);
        s := action(s, key);
        trace := trace + [key];
      }
      assert es[..i] == es;
    }

    /**
     * `find`: the first qualifying key that satisfies `p`, or `None` (`undefined`) when
     * there is none.
     */
    method Find(p: string -> bool) returns (found: Wrappers.Option<string>, ghost trace: seq<string>)
      ensures found.None? <==> forall j :: 0 <= j < |Keys()| ==> !p(Keys()[j])
      ensures found.Some? ==> exists j :: 0 <= j < |Keys()| && Keys()[j] == found.value
                                && p(found.value) && forall i :: 0 <= i < j ==> !p(Keys()[i])
      ensures trace == ScanUntil(p, Keys())
    {
      var es := host.properties;
      trace := [];
      var i := 0;
      while i < |es|
        invariant 0 <= i <= |es|
        invariant trace == QualifyingKeys(es[..i])
        invariant forall j :: 0 <= j < |trace| ==> !p(trace[j])
      {
        var e := es[i];
        KeysStep(es, i);
        i := i + 1;
        if !Qualifies(e) {
          continue;
        }
        var key := e.key.name;
        if p(key) {
          ScanHit(p, es, i, trace, key);
          found := Wrappers.Some(key);
          assert Keys()[|trace|] == key;
          trace := trace + [key];
          return;
        }
        trace := trace + [key];
      }
      assert es[..i] == es;
      ScanNoneStops(p, trace);
      found := Wrappers.None;
    }
  }

  /**
   * The factory `K`: throws a `TypeError` exactly when given `null` or `undefined`, and
   * otherwise wraps the object it is given, unchanged.
   */
  method K(x: JsValue) returns (r: Wrappers.Result<FastKeys, TypeError>)
    ensures r.Failure? <==> x.Null? || x.Undefined?
    ensures r.Failure? ==> r.error == TypeError(NullOrUndefinedMessage)
    ensures r.Success? ==> fresh(r.value) && r.value.host == x.ref
  {
    if x.Null? || x.Undefined? {
      return Wrappers.Failure(TypeError(NullOrUndefinedMessage));
    }
    var view := new FastKeys(x.ref);
    return Wrappers.Success(view);
  }

  /**
   * The view does not cache: a property a caller adds to the object between two calls
   * of `length` is counted by the second call exactly when it qualifies.
   */
  method ReadYourWrites(o: JsObject, e: Entry) returns (before: nat, after: nat)
    modifies o
    ensures o.properties == old(o.properties) + [e]
    ensures after == before + (if Qualifies(e) then 1 else 0)
  {
    var view := new FastKeys(o);
    before := view.Length();
    o.properties := o.properties + [e];
    after := view.Length();
    KeysAppend(old(o.properties), [e]);
  }
}

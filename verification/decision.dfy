/** The decision of `shouldIntercept` as a value: the custom phase (first
    callback that asks for suppression, in registration order) and the fixed
    phase (some sentinel-terminated combination whose every key is down). */
module Decision {
  import opened WinUser
  import opened KeyInterceptorDefs
  import opened KeyState

  /** Index of the first 0 (the sentinel) in a stored entry, or `|e|` if it
      has none. */
  function ZeroIndex(e: seq<UChar>): (i: nat)
    ensures i <= |e|
    ensures i < |e| ==> e[i] == 0
    ensures forall j :: 0 <= j < i ==> e[j] != 0
  {
    if e == [] || e[0] == 0 then 0 else 1 + ZeroIndex(e[1..])
  }

  /** The codes of a stored entry that its scan examines: those before its
      first 0. */
  function Combination(e: seq<UChar>): seq<UChar>
  {
    e[..ZeroIndex(e)]
  }

  predicate CodesInTable(e: seq<UChar>)
  {
    forall j :: 0 <= j < |e| ==> e[j] < KeyTableSize
  }

  /** A stored fixed entry: terminated by the 0 sentinel, every code a
      valid table index. */
  predicate WellFormedEntry(e: seq<UChar>)
  {
    |e| > 0 && e[|e| - 1] == 0 && CodesInTable(e)
  }

  predicate WellFormedEntries(fixed: seq<seq<UChar>>)
  {
    forall j :: 0 <= j < |fixed| ==> WellFormedEntry(fixed[j])
  }

  /** A fixed entry fires when its combination is not empty and every code
      in it is down (alias-aware). */
  predicate Fires(e: seq<UChar>, t: seq<bool>)
    requires |t| == KeyTableSize && CodesInTable(e)
  {
    var c := Combination(e);
    |c| > 0 && forall j :: 0 <= j < |c| ==> IsKeyDown(t, c[j])
  }

  /** A custom entry suppresses when its callback is not null and returns
      true; a null callback, a `false` and a thrown fault all do not. */
  predicate Suppresses(d: KeyInterceptorData, wparam: nat, vk: nat, t: seq<bool>)
  {
    d.interceptor.Some? && d.interceptor.value(wparam, vk, t, d.userData) == Returned(true)
  }

  /** Index of the first custom entry that suppresses, or `|custom|`. */
  function FirstSuppressor(custom: seq<KeyInterceptorData>, wparam: nat, vk: nat, t: seq<bool>): (i: nat)
    ensures i <= |custom|
    ensures i < |custom| ==> Suppresses(custom[i], wparam, vk, t)
    ensures forall j :: 0 <= j < i ==> !Suppresses(custom[j], wparam, vk, t)
  {
    if custom == [] || Suppresses(custom[0], wparam, vk, t) then 0
    else 1 + FirstSuppressor(custom[1..], wparam, vk, t)
  }

  /** Indices, in increasing order, of the entries among the first `n` whose
      callback is not null: the callbacks a scan of those entries invokes. */
  function NonNullIndices(custom: seq<KeyInterceptorData>, n: nat): (r: seq<nat>)
    requires n <= |custom|
    ensures forall a :: 0 <= a < |r| ==> r[a] < n
    ensures forall j :: 0 <= j < n ==> (j in r <==> custom[j].interceptor.Some?)
    ensures forall a, b :: 0 <= a < b < |r| ==> r[a] < r[b]
  {
    if n == 0 then []
    else NonNullIndices(custom, n - 1) + (if custom[n - 1].interceptor.Some? then [n - 1] else [])
  }

  /** The callbacks `shouldIntercept` invokes, in order: every non-null one
      up to and including the first that suppresses, and none after it. */
  function CallbackTrace(custom: seq<KeyInterceptorData>, wparam: nat, vk: nat, t: seq<bool>): seq<nat>
  {
    var stop := FirstSuppressor(custom, wparam, vk, t);
    NonNullIndices(custom, if stop < |custom| then stop + 1 else |custom|)
  }

  /** The result of `shouldIntercept`: some custom callback suppresses, or
      else some fixed entry fires. */
  predicate Intercepts(custom: seq<KeyInterceptorData>, fixed: seq<seq<UChar>>, wparam: nat, vk: nat, t: seq<bool>)
    requires |t| == KeyTableSize && WellFormedEntries(fixed)
  {
    FirstSuppressor(custom, wparam, vk, t) < |custom|
    || exists j :: 0 <= j < |fixed| && Fires(fixed[j], t)
  }

  /** What `AddInterceptor(v, n)` stores is well formed, and its scan
      examines exactly the codes of `v` before the first 0 in `v`: all of
      `v` when it holds no 0. */
  lemma SentinelEntry(v: seq<UChar>)
    requires CodesInTable(v)
    ensures WellFormedEntry(v + [0])
    ensures Combination(v + [0]) == v[..ZeroIndex(v)]
    ensures (forall j :: 0 <= j < |v| ==> v[j] != 0) ==> Combination(v + [0]) == v
  {
    ZeroIndexAppendSentinel(v);
    assert (v + [0])[..ZeroIndex(v)] == v[..ZeroIndex(v)];
  }

  /** Appending the sentinel does not move the first 0 of a sequence that
      already has one, and puts it at the end of one that has none. */
  lemma {:induction false} ZeroIndexAppendSentinel(v: seq<UChar>)
    ensures ZeroIndex(v + [0]) == ZeroIndex(v)
  {
    if v != [] && v[0] != 0 {
      assert (v + [0])[1..] == v[1..] + [0];
      ZeroIndexAppendSentinel(v[1..]);
    }
  }

  /** An entry registered with no codes never fires. */
  lemma EmptyCombinationNeverFires(t: seq<bool>)
    requires |t| == KeyTableSize
    ensures !Fires([0], t)
  {
  }

  /** A 0 inside the registered codes truncates the combination: the entry
      fires exactly as the one registered with the codes before that 0. */
  lemma ZeroTruncates(v: seq<UChar>, k: nat, t: seq<bool>)
    requires |t| == KeyTableSize && CodesInTable(v)
    requires k < |v| && v[k] == 0
    ensures Fires(v + [0], t) == Fires(v[..k] + [0], t)
  {
    SentinelEntry(v);
    SentinelEntry(v[..k]);
    var z := ZeroIndex(v);
    var u := v[..k];
    assert v[..z] == u[..z];
  }

  /** A combination of two real codes fires exactly when both keys are
      down: releasing either one stops it from firing. */
  lemma TwoKeyCombination(a: UChar, b: UChar, t: seq<bool>)
    requires |t| == KeyTableSize
    requires 0 < a < KeyTableSize && 0 < b < KeyTableSize
    ensures Fires([a, b, 0], t) <==> IsKeyDown(t, a) && IsKeyDown(t, b)
  {
    SentinelEntry([a, b]);
    assert [a, b] + [0] == [a, b, 0];
    assert Combination([a, b, 0]) == [a, b];
  }

  /** A combination of one real code fires exactly when that key is down. */
  lemma OneKeyCombination(a: UChar, t: seq<bool>)
    requires |t| == KeyTableSize
    requires 0 < a < KeyTableSize
    ensures Fires([a, 0], t) <==> IsKeyDown(t, a)
  {
  }

  /** Custom callbacks take precedence: once one suppresses, the result is
      suppression whatever the fixed entries say, and the trace ends at the
      suppressing callback. */
  lemma CustomTakesPrecedence(custom: seq<KeyInterceptorData>, fixed: seq<seq<UChar>>, wparam: nat, vk: nat, t: seq<bool>, i: nat)
    requires |t| == KeyTableSize && WellFormedEntries(fixed)
    requires i < |custom| && Suppresses(custom[i], wparam, vk, t)
    requires forall j :: 0 <= j < i ==> !Suppresses(custom[j], wparam, vk, t)
    ensures Intercepts(custom, fixed, wparam, vk, t)
    ensures FirstSuppressor(custom, wparam, vk, t) == i
    ensures CallbackTrace(custom, wparam, vk, t) == NonNullIndices(custom, i + 1)
    ensures forall x :: x in CallbackTrace(custom, wparam, vk, t) ==> x <= i
  {
  }

  /** A custom entry that does not suppress (null, returns false, or
      throws) is transparent: inserting it anywhere in the custom list
      leaves the decision unchanged, so in particular it does not keep a
      later fixed combination from suppressing. */
  lemma NonSuppressingEntryIsTransparent(custom: seq<KeyInterceptorData>, i: nat, d: KeyInterceptorData, fixed: seq<seq<UChar>>, wparam: nat, vk: nat, t: seq<bool>)
    requires |t| == KeyTableSize && WellFormedEntries(fixed)
    requires i <= |custom|
    requires !Suppresses(d, wparam, vk, t)
    ensures Intercepts(custom[..i] + [d] + custom[i..], fixed, wparam, vk, t) == Intercepts(custom, fixed, wparam, vk, t)
  {
    var c' := custom[..i] + [d] + custom[i..];
    var s, s' := FirstSuppressor(custom, wparam, vk, t), FirstSuppressor(c', wparam, vk, t);
    if s < |custom| {
      var j := if s < i then s else s + 1;
      assert c'[j] == custom[s];
      assert s' <= j;
    }
    if s' < |c'| {
      assert s' != i;
      var j := if s' < i then s' else s' - 1;
      assert c'[s'] == custom[j];
      assert s <= j;
    }
  }

  /** Without a suppressing custom callback, the decision is exactly the
      fixed phase: suppression iff some fixed entry fires. */
  lemma FixedPhaseDecides(custom: seq<KeyInterceptorData>, fixed: seq<seq<UChar>>, wparam: nat, vk: nat, t: seq<bool>)
    requires |t| == KeyTableSize && WellFormedEntries(fixed)
    requires forall j :: 0 <= j < |custom| ==> !Suppresses(custom[j], wparam, vk, t)
    ensures Intercepts(custom, fixed, wparam, vk, t) <==> exists j :: 0 <= j < |fixed| && Fires(fixed[j], t)
    ensures CallbackTrace(custom, wparam, vk, t) == NonNullIndices(custom, |custom|)
  {
  }
}

/**
 * Shared vocabulary: optional values, results carrying the fault that
 * stopped a run, and the two dictionary idioms the program leans on
 * (a dict built from a list keeps the first position of each key and the
 * last value written under it).
 */
module Base {

  datatype Option<T> = None | Some(value: T)

  /** Why a page fetch failed: the two exception classes the page getter raises. */
  datatype FetchError =
    | Refused   // ConnectionRefusedError: a non-OK status, or the site asks for a login
    | Aborted   // ConnectionAbortedError: a timeout or any other transport failure

  /** Why a run stopped: an exception in the program, or its explicit exit. */
  datatype Fault =
    | Fetch(error: FetchError)   // the page getter raised
    | BadNumber                  // int() raised ValueError
    | MissingColumn              // a row or chart lacked an indexed part (IndexError)
    | NoCaption                  // the story-eyes page had no month caption (sys.exit)
    | NoMenuEntry                // the month menu was empty (IndexError)
    | MissingStory               // a pending check names a story absent from the catalogue
    | DuplicateKey               // an insert collided with an existing primary key
    | NotIterable                // a parser's False result was iterated (TypeError)

  datatype Result<T> = Ok(value: T) | Err(fault: Fault)

  /** Some element of a non-empty set. */
  lemma Pick<T>(s: set<T>) returns (x: T)
    requires s != {}
    ensures x in s
  {
    x :| x in s;
  }

  /** `d.get(k, dflt)` on a Python dict. */
  function Get<K, V>(m: map<K, V>, k: K, dflt: V): V
  {
    if k in m then m[k] else dflt
  }

  /** Keys of `dict((key(x), x) for x in recs)`, in the order a dict iterates them. */
  function FirstKeys<T>(recs: seq<T>, key: T -> int): (ks: seq<int>)
    ensures forall i, j :: 0 <= i < j < |ks| ==> ks[i] != ks[j]
    ensures forall k :: k in ks <==> exists i :: 0 <= i < |recs| && key(recs[i]) == k
  {
    if recs == [] then []
    else
      var front := FirstKeys(recs[..|recs| - 1], key);
      var k := key(recs[|recs| - 1]);
      assert forall x :: x in recs[..|recs| - 1] ==> x in recs;
      if k in front then front else front + [k]
  }

  /** Values of `dict((key(x), x) for x in recs)`: the last record under each key wins. */
  function LastBy<T>(recs: seq<T>, key: T -> int): (m: map<int, T>)
    ensures forall k :: k in m <==> exists i :: 0 <= i < |recs| && key(recs[i]) == k
    ensures forall k :: k in m ==> key(m[k]) == k
  {
    if recs == [] then map[]
    else LastBy(recs[..|recs| - 1], key)[key(recs[|recs| - 1]) := recs[|recs| - 1]]
  }

  /** The record kept under a key is the last one carrying that key. */
  lemma {:induction false} LastByIsLast<T>(recs: seq<T>, key: T -> int, i: int)
    requires 0 <= i < |recs|
    requires forall j :: i < j < |recs| ==> key(recs[j]) != key(recs[i])
    ensures key(recs[i]) in LastBy(recs, key)
    ensures LastBy(recs, key)[key(recs[i])] == recs[i]
  {
    if i < |recs| - 1 {
      var front := recs[..|recs| - 1];
      LastByIsLast(front, key, i);
    }
  }

  /** Both views of the dict agree on which keys it holds. */
  lemma FirstKeysCoverLastBy<T>(recs: seq<T>, key: T -> int)
    ensures forall k :: k in FirstKeys(recs, key) <==> k in LastBy(recs, key)
  {
  }

  /**
   * A list comprehension whose element expression may raise: the whole list
   * when every element succeeds, otherwise the first failure in order.
   */
  function MapResult<A, B>(xs: seq<A>, f: A -> Result<B>): (r: Result<seq<B>>)
    ensures r.Ok? <==> forall i :: 0 <= i < |xs| ==> f(xs[i]).Ok?
    ensures r.Ok? ==> |r.value| == |xs| && forall i :: 0 <= i < |xs| ==> r.value[i] == f(xs[i]).value
    ensures r.Err? ==> exists i :: 0 <= i < |xs| && f(xs[i]) == Err(r.fault) && forall j :: 0 <= j < i ==> f(xs[j]).Ok?
  {
    if xs == [] then Ok([])
    else
      var front := xs[..|xs| - 1];
      var x := xs[|xs| - 1];
      match MapResult(front, f)
      case Err(e) => Err(e)
      case Ok(vs) =>
        match f(x)
        case Err(e) =>
          assert forall j :: 0 <= j < |front| ==> f(xs[j]).Ok? by {
            forall j | 0 <= j < |front| ensures f(xs[j]).Ok? { assert xs[j] == front[j]; }
          }
          Err(e)
        case Ok(v) => Ok(vs + [v])
  }

  /** One more element: the list so far extended by its value, or its failure. */
  lemma MapResultStep<A, B>(xs: seq<A>, f: A -> Result<B>, i: nat, vs: seq<B>)
    requires i < |xs| && MapResult(xs[..i], f) == Ok(vs)
    ensures f(xs[i]).Ok? ==> MapResult(xs[..i + 1], f) == Ok(vs + [f(xs[i]).value])
    ensures f(xs[i]).Err? ==> MapResult(xs, f) == Err(f(xs[i]).fault)
  {
    assert xs[..i + 1][..i] == xs[..i];
    if f(xs[i]).Err? {
      MapResultPrefixErr(xs, f, i + 1);
    }
  }

  /** A list that was read whole: its front read whole, its last element read. */
  lemma MapResultFront<A, B>(xs: seq<A>, f: A -> Result<B>, vs: seq<B>)
    requires xs != [] && MapResult(xs, f) == Ok(vs)
    ensures MapResult(xs[..|xs| - 1], f) == Ok(vs[..|xs| - 1]) && f(xs[|xs| - 1]) == Ok(vs[|xs| - 1])
  {
  }

  /** A prefix one longer is the prefix and the next element. */
  lemma TakeNext<T>(s: seq<T>, i: nat)
    requires i < |s|
    ensures s[..i + 1] == s[..i] + [s[i]]
  {
  }

  /** One more element after a list that went through: its value appended, or its failure. */
  lemma MapResultSnoc<A, B>(xs: seq<A>, f: A -> Result<B>, x: A, vs: seq<B>)
    requires MapResult(xs, f) == Ok(vs)
    ensures MapResult(xs + [x], f) == if f(x).Ok? then Ok(vs + [f(x).value]) else Err(f(x).fault)
  {
    assert (xs + [x])[..|xs|] == xs;
  }

  /** Once a prefix has failed, the whole list fails with the same fault. */
  lemma {:induction false} MapResultPrefixErr<A, B>(xs: seq<A>, f: A -> Result<B>, n: nat)
    requires n <= |xs| && MapResult(xs[..n], f).Err?
    ensures MapResult(xs, f) == MapResult(xs[..n], f)
    decreases |xs| - n
  {
    if n < |xs| {
      assert xs[..n + 1][..n] == xs[..n];
      MapResultPrefixErr(xs, f, n + 1);
    } else {
      assert xs[..n] == xs;
    }
  }

  /** The first item `f` answers for is the one at `k` when every item before it gets `None`. */
  lemma FirstSomeAt<A, B>(xs: seq<A>, f: A -> Option<B>, k: nat)
    requires k < |xs| && f(xs[k]).Some? && forall j :: 0 <= j < k ==> f(xs[j]).None?
    ensures FirstSome(xs, f) == Some((k, f(xs[k]).value))
  {
    var r := FirstSome(xs, f);
    assert r.Some?;
    assert f(xs[r.value.0]) == Some(r.value.1);
  }

  /**
   * The parsers' row loop: each item read in order, the first failure
   * stopping the loop and propagating.
   */
  method MapLoop<A, B>(xs: seq<A>, f: A -> Result<B>) returns (r: Result<seq<B>>)
    ensures r == MapResult(xs, f)
  {
    var vs: seq<B> := [];
    var i := 0;
    while i < |xs|
      invariant 0 <= i <= |xs|
      invariant MapResult(xs[..i], f) == Ok(vs)
    {
      var v := f(xs[i]);
      MapResultStep(xs, f, i, vs);
      if v.Err? {
        return Err(v.fault);
      }
      vs := vs + [v.value];
      i := i + 1;
    }
    assert xs[..i] == xs;
    r := Ok(vs);
  }

  /** `zip(a, b)`: pairs by position, as long as the shorter list. */
  function Zip<A, B>(a: seq<A>, b: seq<B>): (r: seq<(A, B)>)
    ensures |r| == if |a| <= |b| then |a| else |b|
    ensures forall i :: 0 <= i < |r| ==> r[i] == (a[i], b[i])
  {
    if a == [] || b == [] then [] else [(a[0], b[0])] + Zip(a[1..], b[1..])
  }

  /** The first position where `f` yields a value, and that value: `next(… for x in xs if …)`. */
  function FirstSome<A, B>(xs: seq<A>, f: A -> Option<B>): (r: Option<(nat, B)>)
    ensures r.None? <==> forall k :: 0 <= k < |xs| ==> f(xs[k]).None?
    ensures r.Some? ==> r.value.0 < |xs| && f(xs[r.value.0]) == Some(r.value.1)
    ensures r.Some? ==> forall j :: 0 <= j < r.value.0 ==> f(xs[j]).None?
  {
    if xs == [] then None
    else
      match f(xs[0])
      case Some(b) => Some((0, b))
      case None =>
        match FirstSome(xs[1..], f)
        case None =>
          assert forall k :: 1 <= k < |xs| ==> xs[k] == xs[1..][k - 1];
          None
        case Some((k, b)) =>
          assert forall j :: 1 <= j < k + 1 ==> xs[j] == xs[1..][j - 1];
          Some((k + 1, b))
  }
}

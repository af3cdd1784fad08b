/** The decoded form of a JSON document, as `encoding/json` hands it to the
    translator when it unmarshals into `interface{}`: nil, bool, number,
    string, `[]interface{}` and `map[string]interface{}`.  A JSON `null` and
    a missing key both read back as Go's nil, which is `JNull` here. */
module Json {

  datatype JValue =
    | JNull
    | JBool(b: bool)
    | JNum(n: int)
    | JStr(s: string)
    | JArr(elems: seq<JValue>)
    | JObj(members: map<string, JValue>)

  /** Go's `m[k]` on a `map[string]interface{}`: nil when the key is absent. */
  function Member(m: map<string, JValue>, k: string): (v: JValue)
    ensures k in m ==> v == m[k]
    ensures k !in m ==> v == JNull
  {
    if k in m then m[k] else JNull
  }

  /** The largest element of a finite set of naturals, 0 for the empty set. */
  ghost function MaxOf(s: set<nat>): (r: nat)
    ensures forall x :: x in s ==> x <= r
    ensures s == {} ==> r == 0
    ensures s != {} ==> r in s
    decreases s
  {
    if s == {} then 0 else
    var x :| x in s;
    var rest := MaxOf(s - {x});
    assert forall y :: y in s && y != x ==> y in s - {x};
    if x > rest then x else rest
  }

  /** Nesting depth of a JSON value; the termination measure of the walk. */
  ghost function Depth(v: JValue): (d: nat)
    ensures d >= 1
  {
    match v
    case JArr(a) => 1 + MaxOf(set i | 0 <= i < |a| :: Depth(a[i]))
    case JObj(m) => 1 + MaxOf(set k | k in m :: Depth(m[k]))
    case _ => 1
  }

  ghost function Max(a: nat, b: nat): nat
  {
    if a < b then b else a
  }

  /** The deepest element of a list of JSON values (0 for the empty list). */
  ghost function MaxDepth(s: seq<JValue>): (d: nat)
    ensures s == [] ==> d == 0
  {
    var depths := set i | 0 <= i < |s| :: Depth(s[i]);
    assert s == [] ==> depths == {};
    MaxOf(depths)
  }

  lemma DepthMember(m: map<string, JValue>, k: string)
    requires k in m
    ensures Depth(m[k]) < Depth(JObj(m))
  {
    var s := set k' | k' in m :: Depth(m[k']);
    assert Depth(m[k]) in s;
    assert Depth(JObj(m)) == 1 + MaxOf(s);
  }

  lemma DepthElem(a: seq<JValue>, i: nat)
    requires i < |a|
    ensures Depth(a[i]) < Depth(JArr(a))
  {
    var s := set j | 0 <= j < |a| :: Depth(a[j]);
    assert Depth(a[i]) in s;
    assert Depth(JArr(a)) == 1 + MaxOf(s);
  }

  lemma MaxDepthElem(a: seq<JValue>, i: nat)
    requires i < |a|
    ensures Depth(a[i]) <= MaxDepth(a)
  {
    var s := set j | 0 <= j < |a| :: Depth(a[j]);
    assert Depth(a[i]) in s;
    assert MaxDepth(a) == MaxOf(s);
  }

  lemma MaxDepthArr(a: seq<JValue>)
    ensures MaxDepth(a) < Depth(JArr(a))
  {
  }

  /** A list whose every element is at most `b` deep is at most `b` deep. */
  lemma MaxDepthAtMost(a: seq<JValue>, b: nat)
    requires forall i :: 0 <= i < |a| ==> Depth(a[i]) <= b
    ensures MaxDepth(a) <= b
  {
    var s := set j | 0 <= j < |a| :: Depth(a[j]);
    if s != {} {
      var d := MaxOf(s);
      assert d in s;
      var j :| 0 <= j < |a| && Depth(a[j]) == d;
    }
  }

  lemma MaxDepthConcat(a: seq<JValue>, b: seq<JValue>, bound: nat)
    requires MaxDepth(a) <= bound && MaxDepth(b) <= bound
    ensures MaxDepth(a + b) <= bound
  {
    forall i | 0 <= i < |a + b| ensures Depth((a + b)[i]) <= bound {
      if i < |a| {
        MaxDepthElem(a, i);
      } else {
        MaxDepthElem(b, i - |a|);
      }
    }
    MaxDepthAtMost(a + b, bound);
  }
}

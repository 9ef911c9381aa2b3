/** Extreme elements and sizes of finite sets of heights. */
module Sets {

  lemma Member<T>(s: set<T>) returns (y: T)
    requires |s| > 0
    ensures y in s
  {
    y :| y in s;
  }

  lemma {:induction false} MaxExists(s: set<int>)
    requires |s| > 0
    ensures exists m :: m in s && forall x | x in s :: x <= m
  {
    var y := Member(s);
    var rest := s - {y};
    if |rest| == 0 {
      assert s == {y};
    } else {
      MaxExists(rest);
      var m :| m in rest && forall x | x in rest :: x <= m;
      var top := if y > m then y else m;
      assert top in s && forall x | x in s :: x == y || x in rest;
    }
  }

  ghost function MaxOf(s: set<int>): (m: int)
    requires |s| > 0
    ensures m in s && forall x | x in s :: x <= m
  {
    MaxExists(s);
    var m :| m in s && forall x | x in s :: x <= m;
    m
  }

  lemma SmallerWithout<T>(z: map<int, T>, h: int)
    requires h in z
    ensures |z - {h}| < |z|
  {
    assert (z - {h}).Keys == z.Keys - {h};
  }
}

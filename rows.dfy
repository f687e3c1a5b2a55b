/**
 * How the SQLite tables behind the store order and number their rows.
 * A table whose primary key is an INTEGER column keeps its rows by that key:
 * a query without ORDER BY returns them in ascending key order, and a row
 * inserted without a key gets one more than the largest key present
 * (or 1 when the table is empty).
 */
module Rows {

  /** A set that is not empty has a member. */
  lemma HasMember(keys: set<int>)
    requires keys != {}
    ensures exists k :: k in keys
  {
    if forall k :: k !in keys {
      assert false;
    }
  }

  lemma {:induction false} MinimumExists(keys: set<int>)
    requires keys != {}
    ensures exists m :: m in keys && forall k :: k in keys ==> m <= k
  {
    HasMember(keys);
    var y :| y in keys;
    if keys == {y} {
      assert forall k :: k in keys ==> y <= k;
    } else {
      var rest := keys - {y};
      assert rest != {} by { assert keys == rest + {y}; }
      MinimumExists(rest);
      var m :| m in rest && forall k :: k in rest ==> m <= k;
      var least := if y < m then y else m;
      forall k | k in keys ensures least <= k {
        if k != y { assert k in rest; }
      }
      assert least in keys;
    }
  }

  /** The smallest key of a non-empty set of keys. */
  function Minimum(keys: set<int>): (m: int)
    requires keys != {}
    ensures m in keys
    ensures forall k :: k in keys ==> m <= k
  {
    MinimumExists(keys);
    var m :| m in keys && forall k :: k in keys ==> m <= k;
    m
  }

  /** The keys of a table in the order a plain `SELECT` returns its rows. */
  function InKeyOrder(keys: set<int>): (r: seq<int>)
    ensures |r| == |keys|
    ensures forall k :: k in keys <==> k in r
    ensures forall i, j :: 0 <= i < j < |r| ==> r[i] < r[j]
    decreases |keys|
  {
    if keys == {} then []
    else
      var m := Minimum(keys);
      [m] + InKeyOrder(keys - {m})
  }

  /** The key SQLite gives a row inserted into a table holding `keys`. */
  function NextKey(keys: set<int>): (r: int)
    ensures r !in keys
    ensures forall k :: k in keys ==> k < r
    ensures keys != {} ==> r - 1 in keys
    ensures keys == {} ==> r == 1
  {
    var order := InKeyOrder(keys);
    if |order| == 0 then 1
    else
      assert forall k :: k in keys ==> k <= order[|order| - 1] by {
        forall k | k in keys ensures k <= order[|order| - 1] {
          var i :| 0 <= i < |order| && order[i] == k;
        }
      }
      order[|order| - 1] + 1
  }
}

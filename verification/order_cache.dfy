/**
 * The per-theme caches of MicroMovieOrder (lines 12-69): the last order
 * computed for each script id (mOrderList), the slot centres to restore with
 * it (mCenterX, mCenterY), and the element lists kept by the activity
 * (mOrderInfo). A missing key stands for a null array or an empty list.
 */
module OrderCache {
  import opened Elements

  datatype Cache = Cache(
    orderList: map<int, seq<int>>,
    centerX: map<int, seq<int>>,
    centerY: map<int, seq<int>>,
    orderInfo: map<int, seq<ElementInfo>>)

  /** IsOrder: an element list is cached for the theme. */
  predicate IsOrder(c: Cache, id: int): (b: bool)
    ensures b ==> id in c.orderInfo && c.orderInfo[id] != []
  {
    id in c.orderInfo && |c.orderInfo[id]| > 0
  }

  /** Reset (also run by the constructor): every theme forgets its order. */
  function Reset(): (c: Cache)
    ensures forall id :: !IsOrder(c, id)
    ensures forall id :: id !in c.orderList && id !in c.centerX && id !in c.centerY
  {
    Cache(map[], map[], map[], map[])
  }

  /** The centre coordinates of a list of elements, one per element. */
  function CentersX(info: seq<ElementInfo>): (xs: seq<int>)
    ensures |xs| == |info|
    ensures forall j :: 0 <= j < |info| ==> xs[j] == info[j].centerX
  {
    seq(|info|, j requires 0 <= j < |info| => info[j].centerX)
  }

  function CentersY(info: seq<ElementInfo>): (ys: seq<int>)
    ensures |ys| == |info|
    ensures forall j :: 0 <= j < |info| ==> ys[j] == info[j].centerY
  {
    seq(|info|, j requires 0 <= j < |info| => info[j].centerY)
  }

  /** Every theme but `id` has the same entry (or none) in `m'` as in `m`. */
  ghost predicate Unchanged<T>(m: map<int, T>, m': map<int, T>, id: int)
  {
    forall other :: other != id ==> (other in m' <==> other in m) && (other in m ==> m'[other] == m[other])
  }

  /** setOrderInfo: caches the list and copies each element's centre. */
  function SetOrderInfo(c: Cache, id: int, info: seq<ElementInfo>): (r: Cache)
    ensures IsOrder(r, id) <==> |info| > 0
    ensures forall other :: other != id ==> (IsOrder(r, other) <==> IsOrder(c, other))
    ensures id in r.centerX && |r.centerX[id]| == |info|
    ensures id in r.centerY && |r.centerY[id]| == |info|
    ensures forall j :: 0 <= j < |info| ==> r.centerX[id][j] == info[j].centerX && r.centerY[id][j] == info[j].centerY
    ensures id in r.orderInfo && r.orderInfo[id] == info
    ensures r.orderList == c.orderList
    ensures Unchanged(c.orderInfo, r.orderInfo, id) && Unchanged(c.centerX, r.centerX, id) && Unchanged(c.centerY, r.centerY, id)
  {
    c.(orderInfo := c.orderInfo[id := info],
       centerX := c.centerX[id := CentersX(info)],
       centerY := c.centerY[id := CentersY(info)])
  }

  /** setOrderList: stores an order and its centres for the theme. */
  function SetOrderList(c: Cache, id: int, list: seq<int>, x: seq<int>, y: seq<int>): (r: Cache)
    ensures id in r.orderList && r.orderList[id] == list
    ensures id in r.centerX && r.centerX[id] == x && id in r.centerY && r.centerY[id] == y
    ensures Unchanged(c.orderList, r.orderList, id) && Unchanged(c.centerX, r.centerX, id) && Unchanged(c.centerY, r.centerY, id)
    ensures r.orderInfo == c.orderInfo
  {
    c.(orderList := c.orderList[id := list], centerX := c.centerX[id := x], centerY := c.centerY[id := y])
  }
}

/**
  The query logic inlined in the route handlers: the slice of
  `/epochs-modified`, the epoch filter of `/epochs/<epoch>`, `/speed` and
  `/location`, and the nearest-in-time selection of `/now`.
 */
module Query {
  import opened Values

  /**
    Python's adjustment of one slice bound against a sequence of length n. The
    last four ensures spell out the adjustment case by case; `b <= n` is the
    bound Paginate relies on.
   */
  function SliceBound(i: int, n: nat): (b: nat)
    ensures b <= n
    ensures 0 <= i <= n ==> b == i
    ensures i + n < 0 ==> b == 0
    ensures i < 0 <= i + n ==> b == i + n
    ensures n < i ==> b == n
  {
    if i < 0 then (if i + n < 0 then 0 else i + n)
    else if i > n then n
    else i
  }

  /** `data[offset:offset+limit]` with Python's slice semantics. */
  function Paginate<T>(data: seq<T>, offset: int, limit: int): (page: seq<T>)
    ensures |page| == Max(0, SliceBound(offset + limit, |data|) - SliceBound(offset, |data|))
    ensures forall k :: 0 <= k < |page| ==> SliceBound(offset, |data|) + k < |data| && page[k] == data[SliceBound(offset, |data|) + k]
  {
    var start := SliceBound(offset, |data|);
    var stop := SliceBound(offset + limit, |data|);
    if start < stop then data[start..stop] else []
  }

  function Min(a: int, b: int): int { if a <= b then a else b }

  function Max(a: int, b: int): int { if a <= b then b else a }

  /**
    For a non-negative offset and limit, the page is the run of records from
    index offset up to offset + limit, cut at the end of the data: it is empty
    when offset is past the end, and has max(0, min(limit, |data| - offset))
    records.
   */
  lemma PaginateInRange<T>(data: seq<T>, offset: int, limit: int)
    requires 0 <= offset && 0 <= limit
    ensures |Paginate(data, offset, limit)| == Max(0, Min(limit, |data| - offset))
    ensures forall k :: 0 <= k < |Paginate(data, offset, limit)| ==> Paginate(data, offset, limit)[k] == data[offset + k]
    ensures offset >= |data| ==> Paginate(data, offset, limit) == []
    ensures offset < |data| ==> Paginate(data, offset, limit) == data[offset..Min(offset + limit, |data|)]
  {
  }

  /** A page through the whole data is the data. */
  lemma PaginateAll<T>(data: seq<T>)
    ensures Paginate(data, 0, |data|) == data
  {
    assert data[0..|data|] == data;
  }

  /** With the handler's defaults (offset 0, limit 10), the page is the first min(10, |data|) records. */
  lemma PaginateDefaults<T>(data: seq<T>)
    ensures Paginate(data, 0, 10) == data[..Min(10, |data|)]
  {
  }

  /** Whatever the integers, negative ones included, the page is a contiguous run of the data. */
  lemma PaginateContiguous<T>(data: seq<T>, offset: int, limit: int)
    ensures exists s, e :: 0 <= s <= e <= |data| && Paginate(data, offset, limit) == data[s..e]
    ensures |Paginate(data, offset, limit)| <= |data|
  {
    var start := SliceBound(offset, |data|);
    var stop := SliceBound(offset + limit, |data|);
    if start >= stop {
      assert Paginate(data, offset, limit) == data[start..start];
    } else {
      assert Paginate(data, offset, limit) == data[start..stop];
    }
  }

  /**
    A negative offset -k counts from the end, but offset + limit is then
    adjusted on its own: a limit below k also counts from the end, giving limit
    records; a larger limit makes the stop bound count from the front, so the
    page ends at index limit - k and is empty unless that lies past |data| - k.
   */
  lemma PaginateNegativeOffset<T>(data: seq<T>, k: int, limit: int)
    requires 0 < k <= |data| && 0 <= limit
    ensures limit < k ==> Paginate(data, -k, limit) == data[|data| - k..|data| - k + limit]
    ensures k <= limit && limit - k <= |data| - k ==> Paginate(data, -k, limit) == []
    ensures |data| - k < limit - k ==> Paginate(data, -k, limit) == data[|data| - k..Min(limit - k, |data|)]
  {
  }

  /** `state['epoch'] == epoch`: a missing key raises KeyError; a number never equals a string. */
  function EpochMatches(r: Record, epoch: string): (m: Result<bool>)
    ensures m.Ok? <==> "epoch" in r
    ensures m.Err? ==> m.exc == KeyError("epoch")
    ensures m.Ok? ==> (m.value <==> HasEpoch(r, epoch))
  {
    match Get(r, "epoch")
    case Err(e) => Err(e)
    case Ok(v) => Ok(v == Text(epoch))
  }

  /** The record's epoch is exactly the string epoch. */
  predicate HasEpoch(r: Record, epoch: string)
  {
    "epoch" in r && r["epoch"] == Text(epoch)
  }

  /** The number of records whose epoch is exactly epoch. */
  function CountMatches(data: seq<Record>, epoch: string): nat
  {
    if data == [] then 0 else (if HasEpoch(data[0], epoch) then 1 else 0) + CountMatches(data[1..], epoch)
  }

  /**
    `[state for state in data if state['epoch'] == epoch]`: it raises exactly
    when some record has no `epoch`; otherwise it holds exactly the records whose
    epoch is the query string, as many as there are matches.
   */
  function FindByEpoch(data: seq<Record>, epoch: string): (found: Result<seq<Record>>)
    ensures found.Ok? <==> forall i :: 0 <= i < |data| ==> "epoch" in data[i]
    ensures found.Err? ==> found.exc == KeyError("epoch")
    ensures found.Ok? ==> forall r :: r in found.value <==> r in data && HasEpoch(r, epoch)
    ensures found.Ok? ==> |found.value| == CountMatches(data, epoch)
  {
    if data == [] then Ok([])
    else
      match EpochMatches(data[0], epoch)
      case Err(e) => Err(e)
      case Ok(b) =>
        match FindByEpoch(data[1..], epoch)
        case Err(e) => Err(e)
        case Ok(rest) => Ok(if b then [data[0]] + rest else rest)
  }

  /** The filter keeps the document order: filtering a concatenation concatenates the filtered parts. */
  lemma {:induction false} FindByEpochAppend(a: seq<Record>, b: seq<Record>, epoch: string)
    requires FindByEpoch(a, epoch).Ok? && FindByEpoch(b, epoch).Ok?
    ensures FindByEpoch(a + b, epoch) == Ok(FindByEpoch(a, epoch).value + FindByEpoch(b, epoch).value)
    decreases |a|
  {
    if a != [] {
      assert (a + b)[0] == a[0] && (a + b)[1..] == a[1..] + b;
      FindByEpochAppend(a[1..], b, epoch);
      var head := if HasEpoch(a[0], epoch) then [a[0]] else [];
      var restA, restB := FindByEpoch(a[1..], epoch).value, FindByEpoch(b, epoch).value;
      assert FindByEpoch(a, epoch).value == head + restA;
      assert FindByEpoch(a + b, epoch).value == head + (restA + restB);
      assert head + (restA + restB) == (head + restA) + restB;
    } else {
      assert a + b == b && FindByEpoch(a, epoch).value == [];
      assert FindByEpoch(a, epoch).value + FindByEpoch(b, epoch).value == FindByEpoch(b, epoch).value;
    }
  }

  /** The first record found is the first record of the data whose epoch matches. */
  lemma {:induction false} FirstFound(data: seq<Record>, epoch: string)
    requires FindByEpoch(data, epoch).Ok? && FindByEpoch(data, epoch).value != []
    ensures exists i ::
      && 0 <= i < |data| && data[i] == FindByEpoch(data, epoch).value[0] && HasEpoch(data[i], epoch)
      && forall j :: 0 <= j < i ==> !HasEpoch(data[j], epoch)
    decreases |data|
  {
    if !HasEpoch(data[0], epoch) {
      FirstFound(data[1..], epoch);
      var i :| 0 <= i < |data| - 1 && data[1..][i] == FindByEpoch(data[1..], epoch).value[0] && HasEpoch(data[1..][i], epoch)
        && forall j :: 0 <= j < i ==> !HasEpoch(data[1..][j], epoch);
      assert data[i + 1] == FindByEpoch(data, epoch).value[0];
      forall j | 0 <= j < i + 1 ensures !HasEpoch(data[j], epoch) {
        if j > 0 { assert data[j] == data[1..][j - 1]; }
      }
    }
  }

  /** A timestamp as whole seconds. */
  type Seconds = int

  /**
    `datetime.strptime(x['epoch'], '%Y-%m-%dT%H:%M:%S')` with the parse itself a
    parameter: a missing key raises KeyError, a number TypeError, a string that
    does not parse ValueError.
   */
  function EpochTime(r: Record, strptime: string -> Option<Seconds>): (t: Result<Seconds>)
    ensures "epoch" !in r ==> t == Err(KeyError("epoch"))
    ensures "epoch" in r && r["epoch"].Num? ==> t == Err(TypeError)
    ensures "epoch" in r && r["epoch"].Text? ==> (t.Ok? <==> strptime(r["epoch"].s).Some?)
    ensures "epoch" in r && r["epoch"].Text? && t.Err? ==> t == Err(ValueError)
    ensures t.Ok? ==> "epoch" in r && r["epoch"].Text? && strptime(r["epoch"].s) == Some(t.value)
  {
    match Get(r, "epoch")
    case Err(e) => Err(e)
    case Ok(Num(_)) => Err(TypeError)
    case Ok(Text(s)) =>
      match strptime(s)
      case None => Err(ValueError)
      case Some(t) => Ok(t)
  }

  /** `abs(now - t)`. */
  function Distance(now: Seconds, t: Seconds): nat
  {
    if now >= t then now - t else t - now
  }

  /** The key `min` computes for each record, in order; the first record whose key raises decides the exception. */
  function Distances(data: seq<Record>, now: Seconds, strptime: string -> Option<Seconds>): (ds: Result<seq<int>>)
    ensures ds.Ok? <==> forall i :: 0 <= i < |data| ==> EpochTime(data[i], strptime).Ok?
    ensures ds.Ok? ==> |ds.value| == |data|
    ensures ds.Ok? ==> forall i :: 0 <= i < |data| ==> ds.value[i] == Distance(now, EpochTime(data[i], strptime).value)
    ensures ds.Err? ==> exists i ::
      && 0 <= i < |data| && EpochTime(data[i], strptime) == Err(ds.exc)
      && forall j :: 0 <= j < i ==> EpochTime(data[j], strptime).Ok?
  {
    if data == [] then Ok([])
    else
      match EpochTime(data[0], strptime)
      case Err(e) => Err(e)
      case Ok(t) =>
        match Distances(data[1..], now, strptime)
        case Err(e) =>
          assert forall j :: 0 <= j < |data| - 1 ==> data[1..][j] == data[j + 1];
          Err(e)
        case Ok(rest) => Ok([Distance(now, t)] + rest)
  }

  /**
    The position `min` settles on: it scans left to right and replaces its
    candidate only by a strictly smaller key, so it is the first position of the
    least key.
   */
  function ArgMin(ks: seq<int>): (m: nat)
    requires |ks| > 0
    ensures m < |ks|
    ensures forall j :: 0 <= j < |ks| ==> ks[m] <= ks[j]
    ensures forall j :: 0 <= j < m ==> ks[m] < ks[j]
    decreases |ks|
  {
    if |ks| == 1 then 0
    else
      var b := ArgMin(ks[..|ks| - 1]);
      if ks[|ks| - 1] < ks[b] then |ks| - 1 else b
  }

  /** Record i is nearest in time to now, and no earlier record is as near. */
  ghost predicate IsNearest(data: seq<Record>, now: Seconds, strptime: string -> Option<Seconds>, i: int)
    requires forall j :: 0 <= j < |data| ==> EpochTime(data[j], strptime).Ok?
  {
    && 0 <= i < |data|
    && (forall j :: 0 <= j < |data| ==>
          Distance(now, EpochTime(data[i], strptime).value) <= Distance(now, EpochTime(data[j], strptime).value))
    && (forall j :: 0 <= j < i ==>
          Distance(now, EpochTime(data[i], strptime).value) < Distance(now, EpochTime(data[j], strptime).value))
  }

  /**
    `min(data, key=lambda x: abs(now - strptime(x['epoch'])))`: the empty list
    raises ValueError; a key that raises propagates; otherwise the first record
    nearest in time to now.
   */
  function Nearest(data: seq<Record>, now: Seconds, strptime: string -> Option<Seconds>): (r: Result<Record>)
    ensures |data| == 0 ==> r == Err(ValueError)
    ensures r.Ok? <==> |data| > 0 && forall j :: 0 <= j < |data| ==> EpochTime(data[j], strptime).Ok?
    ensures r.Ok? ==> exists i :: IsNearest(data, now, strptime, i) && data[i] == r.value
    ensures |data| > 0 && r.Err? ==> exists i ::
      && 0 <= i < |data| && EpochTime(data[i], strptime) == Err(r.exc)
      && forall j :: 0 <= j < i ==> EpochTime(data[j], strptime).Ok?
  {
    if |data| == 0 then Err(ValueError)
    else
      match Distances(data, now, strptime)
      case Err(e) => Err(e)
      case Ok(ds) =>
        var i := ArgMin(ds);
        assert IsNearest(data, now, strptime, i);
        Ok(data[i])
  }
}

/**
  The route handlers of the tracker with the fetch taken out: each takes the
  list of records `fetch_iss_data` produced and applies the query and speed
  logic of its route. JSON serialisation is not modelled.
 */
module Routes {
  import opened Values
  import Feed
  import Speed
  import Query

  /** The location fields the routes answer with. */
  datatype Location = Location(latitude: int, longitude: int, altitude: int, geoposition: string)

  /** The answer of `/now`. */
  datatype Snapshot = Snapshot(speed: real, location: Location)

  /** The fixed location answered in place of a computed one. */
  const Unlocated := Location(0, 0, 0, "N/A")

  /**
    `get_speed`: the instantaneous speed of the first record with the epoch. No
    match makes `epoch_data[0]` raise IndexError; a record without `epoch`
    makes the filter raise KeyError.
   */
  function GetSpeed(data: seq<Record>, epoch: string, sqrt: real -> real): (r: Result<real>)
    ensures r == Err(IndexError) <==> Query.FindByEpoch(data, epoch) == Ok([])
    ensures Query.FindByEpoch(data, epoch).Err? ==> r == Err(KeyError("epoch"))
    ensures r.Ok? ==> exists i ::
      && 0 <= i < |data| && Query.HasEpoch(data[i], epoch)
      && (forall j :: 0 <= j < i ==> !Query.HasEpoch(data[j], epoch))
      && Speed.InstantaneousSpeed(data[i], sqrt) == r
    ensures Query.FindByEpoch(data, epoch).Ok? && Query.FindByEpoch(data, epoch).value != [] ==>
      r == Speed.InstantaneousSpeed(Query.FindByEpoch(data, epoch).value[0], sqrt)
  {
    match Query.FindByEpoch(data, epoch)
    case Err(e) => Err(e)
    case Ok(found) =>
      if found == [] then Err(IndexError)
      else
        Query.FirstFound(data, epoch);
        Speed.InstantaneousSpeed(found[0], sqrt)
  }

  /** `get_location`: the filter is evaluated (and may raise), then the fixed location is answered. */
  function GetLocation(data: seq<Record>, epoch: string): (r: Result<Location>)
    ensures r.Ok? <==> forall i :: 0 <= i < |data| ==> "epoch" in data[i]
    ensures r.Ok? ==> r.value == Unlocated
    ensures r.Err? ==> r.exc == KeyError("epoch")
  {
    match Query.FindByEpoch(data, epoch)
    case Err(e) => Err(e)
    case Ok(_) => Ok(Unlocated)
  }

  /**
    `get_current_data`: the speed of the record nearest in time to now, with the
    fixed location. An empty list makes `min` raise ValueError.
   */
  function GetCurrentData(data: seq<Record>, now: Query.Seconds, strptime: string -> Option<Query.Seconds>, sqrt: real -> real)
    : (r: Result<Snapshot>)
    ensures |data| == 0 ==> r == Err(ValueError)
    ensures r.Ok? <==> Query.Nearest(data, now, strptime).Ok? && Speed.HasVelocity(Query.Nearest(data, now, strptime).value)
    ensures r.Ok? ==> exists i ::
      && Query.IsNearest(data, now, strptime, i)
      && Speed.InstantaneousSpeed(data[i], sqrt) == Ok(r.value.speed)
      && r.value.location == Unlocated
    ensures Query.Nearest(data, now, strptime).Err? ==> r == Err(Query.Nearest(data, now, strptime).exc)
    ensures Query.Nearest(data, now, strptime).Ok? && !Speed.HasVelocity(Query.Nearest(data, now, strptime).value) ==>
      r == Err(Speed.InstantaneousSpeed(Query.Nearest(data, now, strptime).value, sqrt).exc)
  {
    match Query.Nearest(data, now, strptime)
    case Err(e) => Err(e)
    case Ok(closest) =>
      match Speed.InstantaneousSpeed(closest, sqrt)
      case Err(e) => Err(e)
      case Ok(speed) => Ok(Snapshot(speed, Unlocated))
  }

  /**
    As written, `fetch_iss_data` converts every field, `epoch` included, with
    `float()`, and a float never equals the route's epoch string: on any list it
    returns, the epoch filter finds nothing (or raises KeyError), so `/speed`
    never answers with a speed.
   */
  lemma AsWrittenEpochNeverMatches(states: seq<Feed.State>, conv: string -> Option<real>, epoch: string, sqrt: real -> real)
    requires Feed.Fetch(states, conv, {}).Ok?
    ensures Query.FindByEpoch(Feed.Fetch(states, conv, {}).value, epoch) == Ok([])
         || Query.FindByEpoch(Feed.Fetch(states, conv, {}).value, epoch) == Err(KeyError("epoch"))
    ensures GetSpeed(Feed.Fetch(states, conv, {}).value, epoch, sqrt).Err?
  {
    var rs := Feed.Fetch(states, conv, {}).value;
    Feed.FetchedValuesAreNumbers(states, conv);
    NoEpochMatches(rs, epoch);
  }

  /** Records whose values are all numbers match no epoch string. */
  lemma {:induction false} NoEpochMatches(rs: seq<Record>, epoch: string)
    requires forall r: Record, k: string :: r in rs && k in r ==> r[k].Num?
    ensures Query.CountMatches(rs, epoch) == 0
    decreases |rs|
  {
    if rs != [] {
      assert rs[0] in rs;
      assert forall r :: r in rs[1..] ==> r in rs;
      NoEpochMatches(rs[1..], epoch);
    }
  }

  /**
    As written, `/now` never answers: `min` over an empty list raises
    ValueError, and otherwise the first record's `epoch` is missing (KeyError)
    or a float, which `strptime` rejects with TypeError.
   */
  lemma AsWrittenNowFails(states: seq<Feed.State>, conv: string -> Option<real>, now: Query.Seconds,
                          strptime: string -> Option<Query.Seconds>, sqrt: real -> real)
    requires Feed.Fetch(states, conv, {}).Ok?
    ensures Query.Nearest(Feed.Fetch(states, conv, {}).value, now, strptime).Err?
    ensures GetCurrentData(Feed.Fetch(states, conv, {}).value, now, strptime, sqrt).Err?
  {
    var rs := Feed.Fetch(states, conv, {}).value;
    Feed.FetchedValuesAreNumbers(states, conv);
    if rs != [] {
      assert rs[0] in rs;
      assert Query.EpochTime(rs[0], strptime).Err?;
    }
  }

  /** Every state element has a child tagged `epoch`. */
  ghost predicate EveryStateHasEpoch(states: seq<Feed.State>)
  {
    forall i :: 0 <= i < |states| ==> exists j :: 0 <= j < |states[i]| && states[i][j].tag == "epoch"
  }

  /** With `epoch` kept as text, every fetched record has an `epoch` string: the text of its last `epoch` child. */
  lemma KeptEpochIsText(states: seq<Feed.State>, conv: string -> Option<real>, i: int) returns (j: int)
    requires Feed.Converts(states, conv, {"epoch"})
    requires EveryStateHasEpoch(states)
    requires 0 <= i < |states|
    ensures Feed.Fetch(states, conv, {"epoch"}).Ok? && |Feed.Fetch(states, conv, {"epoch"}).value| == |states|
    ensures 0 <= j < |states[i]| && states[i][j].tag == "epoch" && states[i][j].text.Some?
    ensures forall l :: j < l < |states[i]| ==> states[i][l].tag != "epoch"
    ensures "epoch" in Feed.Fetch(states, conv, {"epoch"}).value[i]
    ensures Feed.Fetch(states, conv, {"epoch"}).value[i]["epoch"] == Text(states[i][j].text.value)
  {
    j := Feed.LastWithTag(states[i], "epoch");
    Feed.FetchedRecord(states, conv, {"epoch"}, i);
  }

  /**
    Corrected: when `fetch_iss_data` keeps the `epoch` text as a string, the
    lookup of any epoch in the feed finds that record, and `/speed` answers with
    the instantaneous speed of the first record carrying that epoch, which is
    record i or an earlier one; it is a speed whenever that record has the
    three velocity fields.
   */
  lemma KeptEpochIsFound(states: seq<Feed.State>, conv: string -> Option<real>, i: int, j: int, e: string, sqrt: real -> real)
    requires Feed.Converts(states, conv, {"epoch"})
    requires EveryStateHasEpoch(states)
    requires 0 <= i < |states| && 0 <= j < |states[i]| && states[i][j] == Feed.Child("epoch", Some(e))
    requires forall l :: j < l < |states[i]| ==> states[i][l].tag != "epoch"
    ensures Feed.Fetch(states, conv, {"epoch"}).Ok? && |Feed.Fetch(states, conv, {"epoch"}).value| == |states|
    ensures Query.FindByEpoch(Feed.Fetch(states, conv, {"epoch"}).value, e).Ok?
    ensures Feed.Fetch(states, conv, {"epoch"}).value[i] in Query.FindByEpoch(Feed.Fetch(states, conv, {"epoch"}).value, e).value
    ensures GetSpeed(Feed.Fetch(states, conv, {"epoch"}).value, e, sqrt) != Err(IndexError)
    ensures exists i' ::
      && 0 <= i' <= i && Query.HasEpoch(Feed.Fetch(states, conv, {"epoch"}).value[i'], e)
      && (forall l :: 0 <= l < i' ==> !Query.HasEpoch(Feed.Fetch(states, conv, {"epoch"}).value[l], e))
      && GetSpeed(Feed.Fetch(states, conv, {"epoch"}).value, e, sqrt)
         == Speed.InstantaneousSpeed(Feed.Fetch(states, conv, {"epoch"}).value[i'], sqrt)
      && (Speed.HasVelocity(Feed.Fetch(states, conv, {"epoch"}).value[i'])
          ==> GetSpeed(Feed.Fetch(states, conv, {"epoch"}).value, e, sqrt).Ok?)
  {
    Feed.FetchWhenAllConvert(states, conv, {"epoch"});
    var rs := Feed.Fetch(states, conv, {"epoch"}).value;
    forall i' | 0 <= i' < |states| ensures "epoch" in rs[i'] {
      var _ := KeptEpochIsText(states, conv, i');
    }
    Feed.FetchedRecord(states, conv, {"epoch"}, i);
    assert rs[i] in rs && Query.HasEpoch(rs[i], e);
    Query.FirstFound(rs, e);
  }

  /**
    Corrected: when `fetch_iss_data` keeps the `epoch` text as a string and every
    such text parses, `/now` finds the nearest record of a non-empty feed.
   */
  lemma KeptEpochGivesNearest(states: seq<Feed.State>, conv: string -> Option<real>, now: Query.Seconds,
                              strptime: string -> Option<Query.Seconds>)
    requires Feed.Converts(states, conv, {"epoch"})
    requires EveryStateHasEpoch(states)
    requires |states| > 0
    requires forall i, j :: 0 <= i < |states| && 0 <= j < |states[i]| && states[i][j].tag == "epoch" ==>
      states[i][j].text.Some? && strptime(states[i][j].text.value).Some?
    ensures Feed.Fetch(states, conv, {"epoch"}).Ok?
    ensures Query.Nearest(Feed.Fetch(states, conv, {"epoch"}).value, now, strptime).Ok?
  {
    Feed.FetchWhenAllConvert(states, conv, {"epoch"});
    var rs := Feed.Fetch(states, conv, {"epoch"}).value;
    forall i | 0 <= i < |states| ensures Query.EpochTime(rs[i], strptime).Ok? {
      var j := KeptEpochIsText(states, conv, i);
    }
  }
}

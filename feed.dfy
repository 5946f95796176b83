/**
  Record building in `fetch_iss_data`: every `state` element of the parsed
  document becomes a dictionary from child tag to the child's text converted by
  `float()`. The fetch and the XML parse are not modelled: the input is the
  sequence of `state` elements, each the sequence of its children in document
  order.

  Conversion is partial. A text that `float()` rejects raises ValueError, which
  `fetch_iss_data` catches, returning an empty list; an element without text
  makes `float(None)` raise TypeError, which it does not catch. Tags in
  `textTags` keep their text as a string instead of being converted: with
  `textTags == {}` this is the source as written.
 */
module Feed {
  import opened Values

  /** A child element of a `state` element: its tag, and its text (None for an empty element). */
  datatype Child = Child(tag: string, text: Option<string>)

  /** A parsed `state` element: its children in document order. */
  type State = seq<Child>

  /** `float(element.text)` for one child, or its text kept as a string when its tag is in textTags. */
  function ChildValue(c: Child, conv: string -> Option<real>, textTags: set<string>): (v: Result<Value>)
    ensures c.text.None? ==> v == Err(TypeError)
    ensures c.text.Some? && c.tag in textTags ==> v == Ok(Text(c.text.value))
    ensures c.text.Some? && c.tag !in textTags ==> (v.Ok? <==> conv(c.text.value).Some?)
    ensures c.text.Some? && v.Err? ==> v == Err(ValueError)
    ensures v.Ok? && c.tag !in textTags ==> v.value.Num? && conv(c.text.value) == Some(v.value.x)
  {
    match c.text
    case None => Err(TypeError)
    case Some(s) =>
      if c.tag in textTags then Ok(Text(s))
      else match conv(s)
        case None => Err(ValueError)
        case Some(x) => Ok(Num(x))
  }

  /** Every child of every state converts. */
  ghost predicate Converts(states: seq<State>, conv: string -> Option<real>, textTags: set<string>)
  {
    forall i, j :: 0 <= i < |states| && 0 <= j < |states[i]| ==> ChildValue(states[i][j], conv, textTags).Ok?
  }

  /** Child j of state i is the first one, in document order, whose conversion raises. */
  ghost predicate FirstFailure(states: seq<State>, conv: string -> Option<real>, textTags: set<string>, i: int, j: int)
  {
    && 0 <= i < |states| && 0 <= j < |states[i]|
    && ChildValue(states[i][j], conv, textTags).Err?
    && (forall i', j' :: 0 <= i' < i && 0 <= j' < |states[i']| ==> ChildValue(states[i'][j'], conv, textTags).Ok?)
    && (forall j' :: 0 <= j' < j ==> ChildValue(states[i][j'], conv, textTags).Ok?)
  }

  /** The dictionary the inner loop builds from the children cs, or the exception the first failing child raises. */
  function StateRecord(cs: State, conv: string -> Option<real>, textTags: set<string>): Result<Record>
    decreases |cs|
  {
    if cs == [] then Ok(map[])
    else
      match StateRecord(cs[..|cs| - 1], conv, textTags)
      case Err(e) => Err(e)
      case Ok(m) =>
        match ChildValue(cs[|cs| - 1], conv, textTags)
        case Err(e) => Err(e)
        case Ok(v) => Ok(m[cs[|cs| - 1].tag := v])
  }

  /** The list the outer loop builds, or the exception the first failing child raises. */
  function Collect(states: seq<State>, conv: string -> Option<real>, textTags: set<string>): Result<seq<Record>>
    decreases |states|
  {
    if states == [] then Ok([])
    else
      match Collect(states[..|states| - 1], conv, textTags)
      case Err(e) => Err(e)
      case Ok(rs) =>
        match StateRecord(states[|states| - 1], conv, textTags)
        case Err(e) => Err(e)
        case Ok(m) => Ok(rs + [m])
  }

  /** What `fetch_iss_data` returns or raises: a ValueError is caught and gives the empty list. */
  function Fetch(states: seq<State>, conv: string -> Option<real>, textTags: set<string>): Result<seq<Record>>
  {
    match Collect(states, conv, textTags)
    case Err(ValueError) => Ok([])
    case other => other
  }

  /** The nested loops of `fetch_iss_data`. */
  method FetchIssData(states: seq<State>, conv: string -> Option<real>, textTags: set<string>)
    returns (r: Result<seq<Record>>)
    ensures r == Fetch(states, conv, textTags)
  {
    var data: seq<Record> := [];
    var i := 0;
    while i < |states|
      invariant 0 <= i <= |states|
      invariant Collect(states[..i], conv, textTags) == Ok(data)
    {
      var state: Record := map[];
      var j := 0;
      while j < |states[i]|
        invariant 0 <= j <= |states[i]|
        invariant StateRecord(states[i][..j], conv, textTags) == Ok(state)
      {
        var v := ChildValue(states[i][j], conv, textTags);
        if v.Err? {
          // the exception leaves both loops
          assert states[i][..j + 1][..j] == states[i][..j];
          StateRecordErrPersists(states[i], j + 1, conv, textTags);
          assert states[..i + 1][..i] == states[..i];
          CollectErrPersists(states, i + 1, conv, textTags);
          if v.exc == ValueError {
            return Ok([]);
          }
          return Err(v.exc);
        }
        assert states[i][..j + 1][..j] == states[i][..j];
        state := state[states[i][j].tag := v.value];
        j := j + 1;
      }
      assert states[i][..j] == states[i];
      assert states[..i + 1][..i] == states[..i];
      data := data + [state];
      i := i + 1;
    }
    assert states[..i] == states;
    return Ok(data);
  }

  /** An exception raised by a prefix of the children is the exception of the whole element. */
  lemma {:induction false} StateRecordErrPersists(cs: State, k: nat, conv: string -> Option<real>, textTags: set<string>)
    requires k <= |cs|
    requires StateRecord(cs[..k], conv, textTags).Err?
    ensures StateRecord(cs, conv, textTags) == StateRecord(cs[..k], conv, textTags)
    decreases |cs|
  {
    if k < |cs| {
      assert cs[..|cs| - 1][..k] == cs[..k];
      StateRecordErrPersists(cs[..|cs| - 1], k, conv, textTags);
    } else {
      assert cs[..k] == cs;
    }
  }

  /** An exception raised by a prefix of the states is the exception of the whole document. */
  lemma {:induction false} CollectErrPersists(states: seq<State>, k: nat, conv: string -> Option<real>, textTags: set<string>)
    requires k <= |states|
    requires Collect(states[..k], conv, textTags).Err?
    ensures Collect(states, conv, textTags) == Collect(states[..k], conv, textTags)
    decreases |states|
  {
    if k < |states| {
      assert states[..|states| - 1][..k] == states[..k];
      CollectErrPersists(states[..|states| - 1], k, conv, textTags);
    } else {
      assert states[..k] == states;
    }
  }

  /**
    One state element converts exactly when all its children do; otherwise the
    exception is the one the first failing child raises.
   */
  lemma {:induction false} StateRecordConverts(cs: State, conv: string -> Option<real>, textTags: set<string>)
    ensures StateRecord(cs, conv, textTags).Ok? <==> forall j :: 0 <= j < |cs| ==> ChildValue(cs[j], conv, textTags).Ok?
    ensures StateRecord(cs, conv, textTags).Err? ==>
      exists j :: 0 <= j < |cs| && ChildValue(cs[j], conv, textTags) == Err(StateRecord(cs, conv, textTags).exc)
        && forall l :: 0 <= l < j ==> ChildValue(cs[l], conv, textTags).Ok?
    decreases |cs|
  {
    if cs != [] {
      var n := |cs| - 1;
      var init := cs[..n];
      StateRecordConverts(init, conv, textTags);
      assert forall j :: 0 <= j < n ==> init[j] == cs[j];
      var ri := StateRecord(init, conv, textTags);
      if ri.Err? {
        var j :| 0 <= j < n && ChildValue(init[j], conv, textTags) == Err(ri.exc)
          && forall l :: 0 <= l < j ==> ChildValue(init[l], conv, textTags).Ok?;
        assert ChildValue(cs[j], conv, textTags) == Err(StateRecord(cs, conv, textTags).exc);
      }
    }
  }

  /** The dictionary of a state element has one key per distinct child tag. */
  lemma {:induction false} StateRecordKeys(cs: State, conv: string -> Option<real>, textTags: set<string>)
    requires StateRecord(cs, conv, textTags).Ok?
    ensures forall k :: k in StateRecord(cs, conv, textTags).value <==> exists j :: 0 <= j < |cs| && cs[j].tag == k
    decreases |cs|
  {
    if cs != [] {
      var n := |cs| - 1;
      var init := cs[..n];
      StateRecordKeys(init, conv, textTags);
      var m := StateRecord(init, conv, textTags).value;
      var r := StateRecord(cs, conv, textTags).value;
      assert r == m[cs[n].tag := ChildValue(cs[n], conv, textTags).value];
      forall k ensures k in r <==> exists j :: 0 <= j < |cs| && cs[j].tag == k {
        if k in m {
          var j :| 0 <= j < n && init[j].tag == k;
          assert cs[j].tag == k;
        }
        if exists j :: 0 <= j < |cs| && cs[j].tag == k {
          var j :| 0 <= j < |cs| && cs[j].tag == k;
          if j < n { assert init[j].tag == k; }
        }
      }
    }
  }

  /** A tag that occurs more than once holds the value of its last occurrence. */
  lemma {:induction false} StateRecordLastWins(cs: State, conv: string -> Option<real>, textTags: set<string>, j: int)
    requires StateRecord(cs, conv, textTags).Ok?
    requires 0 <= j < |cs| && forall l :: j < l < |cs| ==> cs[l].tag != cs[j].tag
    ensures cs[j].tag in StateRecord(cs, conv, textTags).value
    ensures ChildValue(cs[j], conv, textTags) == Ok(StateRecord(cs, conv, textTags).value[cs[j].tag])
    decreases |cs|
  {
    var n := |cs| - 1;
    if j < n {
      var init := cs[..n];
      assert init[j] == cs[j];
      StateRecordLastWins(init, conv, textTags, j);
    }
  }

  /**
    The whole document: the list converts exactly when every state does; it then
    has one record per state, in document order; otherwise the exception is the
    first failing state's.
   */
  lemma {:induction false} CollectSpec(states: seq<State>, conv: string -> Option<real>, textTags: set<string>)
    ensures Collect(states, conv, textTags).Ok? <==> forall i :: 0 <= i < |states| ==> StateRecord(states[i], conv, textTags).Ok?
    ensures Collect(states, conv, textTags).Ok? ==>
      && |Collect(states, conv, textTags).value| == |states|
      && forall i :: 0 <= i < |states| ==> StateRecord(states[i], conv, textTags) == Ok(Collect(states, conv, textTags).value[i])
    ensures Collect(states, conv, textTags).Err? ==>
      exists i :: 0 <= i < |states| && StateRecord(states[i], conv, textTags) == Err(Collect(states, conv, textTags).exc)
        && forall l :: 0 <= l < i ==> StateRecord(states[l], conv, textTags).Ok?
    decreases |states|
  {
    if states != [] {
      var n := |states| - 1;
      var init := states[..n];
      CollectSpec(init, conv, textTags);
      assert forall i :: 0 <= i < n ==> init[i] == states[i];
      var ci := Collect(init, conv, textTags);
      if ci.Err? {
        var i :| 0 <= i < n && StateRecord(init[i], conv, textTags) == Err(ci.exc)
          && forall l :: 0 <= l < i ==> StateRecord(init[l], conv, textTags).Ok?;
        assert StateRecord(states[i], conv, textTags) == Err(Collect(states, conv, textTags).exc);
      }
    }
  }

  /**
    All or nothing: when every text converts, `fetch_iss_data` returns one record
    per state element, in document order, each the dictionary of that element's
    children.
   */
  lemma FetchWhenAllConvert(states: seq<State>, conv: string -> Option<real>, textTags: set<string>)
    requires Converts(states, conv, textTags)
    ensures Fetch(states, conv, textTags).Ok?
    ensures |Fetch(states, conv, textTags).value| == |states|
    ensures forall i :: 0 <= i < |states| ==> StateRecord(states[i], conv, textTags) == Ok(Fetch(states, conv, textTags).value[i])
  {
    forall i | 0 <= i < |states| ensures StateRecord(states[i], conv, textTags).Ok? {
      StateRecordConverts(states[i], conv, textTags);
    }
    CollectSpec(states, conv, textTags);
  }

  /**
    When every text converts, fetched record i has exactly the tags of state
    element i as keys, and each tag maps to the converted text of its last
    occurrence there.
   */
  lemma FetchedRecord(states: seq<State>, conv: string -> Option<real>, textTags: set<string>, i: int)
    requires Converts(states, conv, textTags)
    requires 0 <= i < |states|
    ensures Fetch(states, conv, textTags).Ok? && |Fetch(states, conv, textTags).value| == |states|
    ensures forall k :: k in Fetch(states, conv, textTags).value[i] <==> exists j :: 0 <= j < |states[i]| && states[i][j].tag == k
    ensures forall j :: 0 <= j < |states[i]| && (forall l :: j < l < |states[i]| ==> states[i][l].tag != states[i][j].tag) ==>
      && states[i][j].tag in Fetch(states, conv, textTags).value[i]
      && ChildValue(states[i][j], conv, textTags) == Ok(Fetch(states, conv, textTags).value[i][states[i][j].tag])
  {
    FetchWhenAllConvert(states, conv, textTags);
    StateRecordKeys(states[i], conv, textTags);
    forall j | 0 <= j < |states[i]| && (forall l :: j < l < |states[i]| ==> states[i][l].tag != states[i][j].tag)
      ensures states[i][j].tag in Fetch(states, conv, textTags).value[i]
      ensures ChildValue(states[i][j], conv, textTags) == Ok(Fetch(states, conv, textTags).value[i][states[i][j].tag])
    {
      StateRecordLastWins(states[i], conv, textTags, j);
    }
  }

  /**
    All or nothing, failing side: when some text does not convert, the outcome is
    decided by the first failing child alone: an empty element raises TypeError
    out of `fetch_iss_data`; a text `float()` rejects gives the empty list.
   */
  lemma FetchWhenSomeFails(states: seq<State>, conv: string -> Option<real>, textTags: set<string>)
    requires !Converts(states, conv, textTags)
    ensures exists i, j ::
      && FirstFailure(states, conv, textTags, i, j)
      && Fetch(states, conv, textTags) == if states[i][j].text.None? then Err(TypeError) else Ok([])
  {
    CollectSpec(states, conv, textTags);
    var c := Collect(states, conv, textTags);
    if c.Ok? {
      forall i, j | 0 <= i < |states| && 0 <= j < |states[i]| ensures ChildValue(states[i][j], conv, textTags).Ok? {
        StateRecordConverts(states[i], conv, textTags);
      }
      assert false;
    }
    var i :| 0 <= i < |states| && StateRecord(states[i], conv, textTags) == Err(c.exc)
      && forall l :: 0 <= l < i ==> StateRecord(states[l], conv, textTags).Ok?;
    StateRecordConverts(states[i], conv, textTags);
    var j :| 0 <= j < |states[i]| && ChildValue(states[i][j], conv, textTags) == Err(c.exc)
      && forall l :: 0 <= l < j ==> ChildValue(states[i][l], conv, textTags).Ok?;
    forall i', j' | 0 <= i' < i && 0 <= j' < |states[i']| ensures ChildValue(states[i'][j'], conv, textTags).Ok? {
      StateRecordConverts(states[i'], conv, textTags);
    }
    assert FirstFailure(states, conv, textTags, i, j);
  }

  /** The outcome of `fetch_iss_data` is a list of records or a TypeError; no other exception escapes. */
  lemma FetchOutcomes(states: seq<State>, conv: string -> Option<real>, textTags: set<string>)
    ensures Fetch(states, conv, textTags).Ok? || Fetch(states, conv, textTags) == Err(TypeError)
    ensures Fetch(states, conv, textTags) == Ok([]) ==> states == [] || !Converts(states, conv, textTags)
  {
    if Converts(states, conv, textTags) {
      FetchWhenAllConvert(states, conv, textTags);
    } else {
      FetchWhenSomeFails(states, conv, textTags);
    }
  }

  /** The last child of cs with the given tag, when there is one. */
  lemma {:induction false} LastWithTag(cs: State, tag: string) returns (j: int)
    requires exists j :: 0 <= j < |cs| && cs[j].tag == tag
    ensures 0 <= j < |cs| && cs[j].tag == tag
    ensures forall l :: j < l < |cs| ==> cs[l].tag != tag
    decreases |cs|
  {
    var n := |cs| - 1;
    if cs[n].tag == tag {
      j := n;
    } else {
      var j0 :| 0 <= j0 < |cs| && cs[j0].tag == tag;
      assert cs[..n][j0] == cs[j0];
      j := LastWithTag(cs[..n], tag);
      assert cs[..n][j] == cs[j];
    }
  }

  /** Every value in a dictionary built from children whose tags are not in textTags is a number. */
  lemma {:induction false} StateRecordNumbers(cs: State, conv: string -> Option<real>, textTags: set<string>)
    requires forall j :: 0 <= j < |cs| ==> cs[j].tag !in textTags
    requires StateRecord(cs, conv, textTags).Ok?
    ensures forall k :: k in StateRecord(cs, conv, textTags).value ==> StateRecord(cs, conv, textTags).value[k].Num?
    decreases |cs|
  {
    if cs != [] {
      StateRecordNumbers(cs[..|cs| - 1], conv, textTags);
    }
  }

  /** As written (textTags empty), every value of every fetched record is a number. */
  lemma FetchedValuesAreNumbers(states: seq<State>, conv: string -> Option<real>)
    requires Fetch(states, conv, {}).Ok?
    ensures forall r: Record, k: string :: r in Fetch(states, conv, {}).value && k in r ==> r[k].Num?
  {
    var rs: seq<Record> := Fetch(states, conv, {}).value;
    CollectSpec(states, conv, {});
    if Collect(states, conv, {}).Ok? {
      forall i | 0 <= i < |states| ensures forall k :: k in rs[i] ==> rs[i][k].Num? {
        StateRecordNumbers(states[i], conv, {});
      }
    }
  }
}

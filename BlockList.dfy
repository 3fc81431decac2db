/**
 * The block list of remote hosts as the bot handles it: converting the
 * `blockedHosts` setting to a list of strings (`getStringSlice`), testing
 * membership (`contains`), and appending a host that is not yet listed.
 */
module BlockList {
  import opened Wrappers
  import opened JsonValue

  /** Every item of the array is a JSON string. */
  predicate AllStrings(items: seq<Json>)
  {
    forall i | 0 <= i < |items| :: items[i].JStr?
  }

  /** No host is listed twice. */
  predicate DuplicateFree(hosts: seq<string>)
  {
    forall i, j | 0 <= i < j < |hosts| :: hosts[i] != hosts[j]
  }

  /** The strings of an array of JSON strings, in order; None as soon as
      one item is not a string. */
  function StringsOf(items: seq<Json>): Option<seq<string>>
  {
    if items == [] then Some([])
    else
      var last := items[|items| - 1];
      match StringsOf(items[..|items| - 1])
      case None => None
      case Some(init) => if last.JStr? then Some(init + [last.s]) else None
  }

  /** The conversion `getStringSlice` performs: only an array qualifies. */
  function StringSlice(data: Json): Option<seq<string>>
  {
    if data.JArr? then StringsOf(data.items) else None
  }

  /** StringsOf succeeds exactly on all-string arrays and then keeps every
      string, in order, and no other. */
  lemma {:induction false} StringsOfSpec(items: seq<Json>)
    ensures StringsOf(items).Some? <==> AllStrings(items)
    ensures StringsOf(items).Some? ==>
      |StringsOf(items).value| == |items| &&
      forall i | 0 <= i < |items| :: StringsOf(items).value[i] == items[i].s
  {
    if items != [] {
      var init := items[..|items| - 1];
      StringsOfSpec(init);
      assert forall i | 0 <= i < |init| :: init[i] == items[i];
    }
  }

  /** getStringSlice fails on anything but an array and on an array holding
      a non-string; otherwise it returns the array's strings in order. */
  lemma StringSliceSpec(data: Json)
    ensures StringSlice(data).Some? <==> data.JArr? && AllStrings(data.items)
    ensures StringSlice(data).Some? ==>
      |StringSlice(data).value| == |data.items| &&
      forall i | 0 <= i < |data.items| :: StringSlice(data).value[i] == data.items[i].s
  {
    if data.JArr? {
      StringsOfSpec(data.items);
    }
  }

  /** `contains`: a scan that stops at the first element equal to `str`. */
  method Contains(slice: seq<string>, str: string) returns (found: bool)
    ensures found <==> exists i | 0 <= i < |slice| :: slice[i] == str
  {
    for i := 0 to |slice|
      invariant forall j | 0 <= j < i :: slice[j] != str
    {
      if slice[i] == str {
        return true;
      }
    }
    return false;
  }

  /** `getStringSlice`: appends the items one by one and gives up at the
      first one that is not a string. */
  method GetStringSlice(data: Json) returns (result: Option<seq<string>>)
    ensures result == StringSlice(data)
  {
    if !data.JArr? {
      return None;
    }
    var items := data.items;
    var strings: seq<string> := [];
    for i := 0 to |items|
      invariant StringsOf(items[..i]) == Some(strings)
    {
      var item := items[i];
      assert items[..i + 1][..i] == items[..i];
      if item.JStr? {
        strings := strings + [item.s];
      } else {
        StringsOfSpec(items);
        return None;
      }
    }
    assert items[..|items|] == items;
    return Some(strings);
  }

  /** Append `host` unless it is already listed (main.go's contains-then-append). */
  function AppendIfAbsent(hosts: seq<string>, host: string): (r: seq<string>)
    ensures hosts <= r
    ensures host in r
    ensures forall h | h in r :: h in hosts || h == host
    ensures |r| <= |hosts| + 1
    ensures host in hosts <==> r == hosts
  {
    if host in hosts then hosts else hosts + [host]
  }

  /** Applying append-if-absent a second time changes nothing. */
  lemma AppendIfAbsentIdempotent(hosts: seq<string>, host: string)
    ensures AppendIfAbsent(AppendIfAbsent(hosts, host), host) == AppendIfAbsent(hosts, host)
  {
  }

  /** A duplicate-free list stays duplicate-free. */
  lemma AppendIfAbsentKeepsDuplicateFree(hosts: seq<string>, host: string)
    requires DuplicateFree(hosts)
    ensures DuplicateFree(AppendIfAbsent(hosts, host))
  {
  }

  /** The JSON array sent as `blockedHosts` to update-meta. */
  function HostsJson(hosts: seq<string>): (items: seq<Json>)
    ensures |items| == |hosts|
  {
    seq(|hosts|, i requires 0 <= i < |hosts| => JStr(hosts[i]))
  }

  /** Reading back a list that was sent gives the same list. */
  lemma {:induction false} HostsJsonRoundTrip(hosts: seq<string>)
    ensures StringSlice(JArr(HostsJson(hosts))) == Some(hosts)
  {
    var items := HostsJson(hosts);
    StringsOfSpec(items);
    assert AllStrings(items);
    var r := StringsOf(items).value;
    assert |r| == |hosts|;
    assert forall i | 0 <= i < |hosts| :: r[i] == hosts[i];
    assert r == hosts;
  }
}

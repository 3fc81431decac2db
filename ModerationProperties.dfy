/**
 * What the bot promises about the calls it issues and about the server's
 * block list, stated over the specification functions of Moderation.
 */
module ModerationProperties {
  import opened Wrappers
  import opened JsonValue
  import opened BlockList
  import opened Moderation

  /** A post is acted on only if it is an object with a string `id`, an
      object `user` and at least two mentions; otherwise no call is issued
      and the server is untouched. */
  lemma NoCallUnlessFlagged(element: Json, settings: map<string, Json>, net: Network)
    ensures PostStep(element, settings, net).events == [] <==>
      !(element.JObj? && HasStringId(element.fields) && HasUserObject(element.fields)
        && HasTwoMentions(element.fields))
    ensures PostStep(element, settings, net).events == [] ==>
      PostStep(element, settings, net).settings == settings
  {
  }

  /** A flagged post first deletes the note, then the author's account, then
      reads the settings, whatever became of the deletes; at most one more
      call follows, and only an update-meta. */
  lemma FlaggedCallOrder(element: Json, settings: map<string, Json>, net: Network)
    requires Classify(element).Flagged?
    ensures var v := Classify(element);
      var events := PostStep(element, settings, net).events;
      && 3 <= |events| <= 4
      && events[..3] == [DeleteNote(v.noteId), DeleteAccount(v.userId), GetMeta]
      && (|events| == 4 ==> events[3].UpdateMeta?)
  {
  }

  /** Without a readable all-string `blockedHosts` no update-meta is sent;
      the two deletes and the read have still happened. */
  lemma NoUpdateWithoutBlockList(element: Json, settings: map<string, Json>, net: Network)
    requires Classify(element).Flagged?
    requires !net.metaOk || BlockedHosts(settings).None?
    ensures var v := Classify(element);
      PostStep(element, settings, net)
        == Step([DeleteNote(v.noteId), DeleteAccount(v.userId), GetMeta], settings)
  {
  }

  /** An unlisted host is sent back appended to exactly the old list. */
  lemma UpdateAppendsHost(element: Json, settings: map<string, Json>, net: Network, hosts: seq<string>)
    requires Classify(element).Flagged?
    requires net.metaOk && BlockedHosts(settings) == Some(hosts)
    requires Classify(element).userHost !in hosts
    ensures var v := Classify(element);
      exists sent: seq<string> ::
        && PostStep(element, settings, net).events
             == [DeleteNote(v.noteId), DeleteAccount(v.userId), GetMeta, UpdateMeta(sent)]
        && sent == AppendIfAbsent(hosts, v.userHost)
        && sent[..|hosts|] == hosts
        && |sent| == |hosts| + 1
        && v.userHost in sent
  {
    var v := Classify(element);
    var sent := hosts + [v.userHost];
    assert sent[..|hosts|] == hosts;
    assert PostStep(element, settings, net).events
      == [DeleteNote(v.noteId), DeleteAccount(v.userId), GetMeta, UpdateMeta(sent)];
  }

  /** A host that is already listed triggers no update-meta and leaves the
      server untouched. */
  lemma ListedHostNoUpdate(element: Json, settings: map<string, Json>, net: Network, hosts: seq<string>)
    requires Classify(element).Flagged?
    requires BlockedHosts(settings) == Some(hosts)
    requires Classify(element).userHost in hosts
    ensures var v := Classify(element);
      PostStep(element, settings, net)
        == Step([DeleteNote(v.noteId), DeleteAccount(v.userId), GetMeta], settings)
  {
  }

  /** Only `blockedHosts` of the server settings can change. */
  lemma OnlyBlockedHostsChanges(element: Json, settings: map<string, Json>, net: Network)
    ensures var after := PostStep(element, settings, net).settings;
      after - {"blockedHosts"} == settings - {"blockedHosts"}
      && ("blockedHosts" in settings ==> "blockedHosts" in after)
  {
  }

  /** The server's block list after one post: append-if-absent of the
      author's host when the update went through, the old list otherwise. */
  lemma {:induction false} PostStepBlockList(element: Json, settings: map<string, Json>, net: Network, hosts: seq<string>)
    requires BlockedHosts(settings) == Some(hosts)
    ensures var v := Classify(element);
      BlockedHosts(PostStep(element, settings, net).settings)
        == if v.Flagged? && net.metaOk && net.updateOk
           then Some(AppendIfAbsent(hosts, v.userHost))
           else Some(hosts)
  {
    var v := Classify(element);
    if v.Flagged? && net.metaOk && net.updateOk && v.userHost !in hosts {
      HostsJsonRoundTrip(hosts + [v.userHost]);
    }
  }

  /** Handling a post again after its host was blocked sends no second
      update-meta: the entry is never duplicated. */
  lemma RepeatedPostNoUpdate(element: Json, settings: map<string, Json>, first: Network, second: Network, hosts: seq<string>)
    requires Classify(element).Flagged?
    requires BlockedHosts(settings) == Some(hosts)
    requires first.metaOk && first.updateOk
    ensures var v := Classify(element);
      var again := PostStep(element, PostStep(element, settings, first).settings, second);
      again.events == [DeleteNote(v.noteId), DeleteAccount(v.userId), GetMeta]
  {
    var v := Classify(element);
    PostStepBlockList(element, settings, first, hosts);
    ListedHostNoUpdate(element, PostStep(element, settings, first).settings, second,
      AppendIfAbsent(hosts, v.userHost));
  }

  /** Running over `a` then `b` is running over `a + b`: the trace is the
      in-order concatenation and no element stops the ones after it. */
  lemma {:induction false} RunAppend(a: seq<Json>, b: seq<Json>, settings: map<string, Json>, netsA: seq<Network>, netsB: seq<Network>)
    requires |netsA| == |a| && |netsB| == |b|
    ensures var first := RunSteps(a, settings, netsA);
      var rest := RunSteps(b, first.settings, netsB);
      RunSteps(a + b, settings, netsA + netsB) == Step(first.events + rest.events, rest.settings)
    decreases |b|
  {
    if b != [] {
      var n := |b| - 1;
      var ab, nab := a + b, netsA + netsB;
      RunAppend(a, b[..n], settings, netsA, netsB[..n]);
      assert ab[..|ab| - 1] == a + b[..n];
      assert nab[..|ab| - 1] == netsA + netsB[..n];
      assert ab[|ab| - 1] == b[n] && nab[|ab| - 1] == netsB[n];
      var first := RunSteps(a, settings, netsA);
      var restInit := RunSteps(b[..n], first.settings, netsB[..n]);
      var last := PostStep(b[n], restInit.settings, netsB[n]);
      RunStepsLast(b, first.settings, netsB);
      RunStepsLast(ab, settings, nab);
      var rest := RunSteps(b, first.settings, netsB);
      assert rest == Step(restInit.events + last.events, last.settings);
      assert RunSteps(ab, settings, nab) == Step((first.events + restInit.events) + last.events, last.settings);
      assert (first.events + restInit.events) + last.events == first.events + rest.events;
    } else {
      assert a + b == a;
      assert netsA + netsB == netsA;
    }
  }

  /** One unfolding of RunSteps: the last element runs on what the others left. */
  lemma RunStepsLast(elements: seq<Json>, settings: map<string, Json>, nets: seq<Network>)
    requires |nets| == |elements| && elements != []
    ensures var n := |elements| - 1;
      var before := RunSteps(elements[..n], settings, nets[..n]);
      var last := PostStep(elements[n], before.settings, nets[n]);
      RunSteps(elements, settings, nets) == Step(before.events + last.events, last.settings)
  {
  }

  /** The trace of a run is the concatenation of what each element does on
      its own, given the settings left by the elements before it. */
  lemma RunOneMore(a: seq<Json>, e: Json, settings: map<string, Json>, nets: seq<Network>, net: Network)
    requires |nets| == |a|
    ensures var before := RunSteps(a, settings, nets);
      var last := PostStep(e, before.settings, net);
      RunSteps(a + [e], settings, nets + [net]) == Step(before.events + last.events, last.settings)
  {
    assert (a + [e])[..|a|] == a;
    assert (nets + [net])[..|a|] == nets;
  }

  /** A skipped element leaves no trace and does not disturb the elements
      after it. */
  lemma SkippedElementInvisible(a: seq<Json>, e: Json, b: seq<Json>, settings: map<string, Json>,
                                netsA: seq<Network>, net: Network, netsB: seq<Network>)
    requires |netsA| == |a| && |netsB| == |b|
    requires !Classify(e).Flagged?
    ensures RunSteps(a + [e] + b, settings, netsA + [net] + netsB)
         == RunSteps(a + b, settings, netsA + netsB)
  {
    RunAppend(a + [e], b, settings, netsA + [net], netsB);
    RunOneMore(a, e, settings, netsA, net);
    RunAppend(a, b, settings, netsA, netsB);
  }

  /** Over a whole run a readable block list stays readable, only grows at
      its end, and stays duplicate-free if it was. */
  lemma {:induction false} RunBlockList(elements: seq<Json>, settings: map<string, Json>, nets: seq<Network>, hosts: seq<string>)
    requires |nets| == |elements|
    requires BlockedHosts(settings) == Some(hosts)
    ensures var after := BlockedHosts(RunSteps(elements, settings, nets).settings);
      && after.Some?
      && hosts <= after.value
      && (DuplicateFree(hosts) ==> DuplicateFree(after.value))
      && forall h | h in after.value :: h in hosts || exists i | 0 <= i < |elements| :: Classify(elements[i]).Flagged? && h == Classify(elements[i]).userHost
  {
    if elements != [] {
      var n := |elements| - 1;
      RunBlockList(elements[..n], settings, nets[..n], hosts);
      var before := RunSteps(elements[..n], settings, nets[..n]);
      var mid := BlockedHosts(before.settings).value;
      PostStepBlockList(elements[n], before.settings, nets[n], mid);
      var v := Classify(elements[n]);
      if DuplicateFree(hosts) && v.Flagged? && nets[n].metaOk && nets[n].updateOk {
        AppendIfAbsentKeepsDuplicateFree(mid, v.userHost);
      }
      forall h | h in BlockedHosts(RunSteps(elements, settings, nets).settings).value
        ensures h in hosts || exists i | 0 <= i < |elements| :: Classify(elements[i]).Flagged? && h == Classify(elements[i]).userHost
      {
        if h in mid {
          if h !in hosts {
            var i :| 0 <= i < n && Classify(elements[..n][i]).Flagged? && h == Classify(elements[..n][i]).userHost;
            assert elements[..n][i] == elements[i];
          }
        }
      }
    }
  }
}

/** Worked examples of a single post against a given server. */
module ModerationScenarios {
  import opened Wrappers
  import opened JsonValue
  import opened BlockList
  import opened Moderation

  function Post(noteId: string, user: map<string, Json>, mentions: nat): Json
  {
    JObj(map["id" := JStr(noteId), "user" := JObj(user), "mentions" := JArr(seq(mentions, _ => JObj(map[])))])
  }

  function Hosts(hosts: seq<string>): map<string, Json>
  {
    map["blockedHosts" := JArr(HostsJson(hosts))]
  }

  /** A post with two mentions from an unlisted host: both deletes, the
      read, and an update-meta carrying the old list plus that host. */
  lemma NewHostIsBlocked()
    ensures PostStep(Post("n1", map["id" := JStr("u1"), "host" := JStr("evil.example")], 2),
                     Hosts(["other.example"]), Network(true, true)).events
         == [DeleteNote("n1"), DeleteAccount("u1"), GetMeta, UpdateMeta(["other.example", "evil.example"])]
  {
    HostsJsonRoundTrip(["other.example"]);
    assert BlockedHosts(Hosts(["other.example"])) == Some(["other.example"]);
    assert "evil.example" != "other.example";
    assert ["other.example"] + ["evil.example"] == ["other.example", "evil.example"];
  }

  /** The same post when its host is already listed: no update-meta. */
  lemma KnownHostNotRepeated()
    ensures PostStep(Post("n1", map["id" := JStr("u1"), "host" := JStr("evil.example")], 2),
                     Hosts(["evil.example"]), Network(true, true)).events
         == [DeleteNote("n1"), DeleteAccount("u1"), GetMeta]
  {
  }

  /** A post with a single mention: no call at all. */
  lemma OneMentionIgnored()
    ensures PostStep(Post("n1", map["id" := JStr("u1"), "host" := JStr("evil.example")], 1),
                     Hosts(["other.example"]), Network(true, true)).events
         == []
  {
  }

  /** A local author has no `host`: the empty string is what gets blocked. */
  lemma LocalAuthorBlocksEmptyHost()
    ensures PostStep(Post("n1", map["id" := JStr("u1"), "host" := JNull], 2),
                     Hosts(["other.example"]), Network(true, true)).events
         == [DeleteNote("n1"), DeleteAccount("u1"), GetMeta, UpdateMeta(["other.example", ""])]
  {
    HostsJsonRoundTrip(["other.example"]);
    assert BlockedHosts(Hosts(["other.example"])) == Some(["other.example"]);
    assert "" != "other.example";
    assert ["other.example"] + [""] == ["other.example", ""];
  }
}

/**
 * The per-post moderation decision of the bot (`processElement`) and the
 * loop that applies it to every fetched post, in order.
 *
 * Every remote call is recorded as an Event in a trace. The remote server
 * is represented by its settings record; its admin/meta read returns that
 * record unless the call fails, and a successful update-meta replaces the
 * record's `blockedHosts`. Whether those two calls succeed is supplied by a
 * Network oracle, one per post.
 */
module Moderation {
  import opened Wrappers
  import opened JsonValue
  import opened BlockList

  /** The remote calls the bot issues while handling a post. An event
      records that the call was attempted: the request may still fail to
      be built or sent, and the bot goes on regardless. */
  datatype Event =
    | DeleteNote(noteId: string)             // POST /api/notes/delete
    | DeleteAccount(userId: string)          // POST /api/admin/delete-account
    | GetMeta                                // POST /api/admin/meta
    | UpdateMeta(blockedHosts: seq<string>)  // POST /api/admin/update-meta

  /** What the network does with the two calls whose outcome matters:
      whether the admin/meta read returned the server's settings record,
      and whether update-meta answered 200 OK. A read that fails, or whose
      body decodes to something other than the settings (an error object,
      or `null`, which Go decodes to an empty map), is `metaOk == false`:
      either way the bot finds no usable `blockedHosts` and stops. */
  datatype Network = Network(metaOk: bool, updateOk: bool)

  /** How a fetched element is classified, with the reason it is skipped. */
  datatype Verdict =
    | NotAnObject
    | MissingId
    | MissingUser
    | TooFewMentions
    | Flagged(noteId: string, userId: string, userHost: string)

  predicate HasStringId(post: map<string, Json>)
  {
    "id" in post && post["id"].JStr?
  }

  predicate HasUserObject(post: map<string, Json>)
  {
    "user" in post && post["user"].JObj?
  }

  predicate HasTwoMentions(post: map<string, Json>)
  {
    "mentions" in post && post["mentions"].JArr? && |post["mentions"].items| >= 2
  }

  /** The shape checks of processElement, in the order the source makes them. */
  function Classify(element: Json): (v: Verdict)
    ensures v.Flagged? <==>
      element.JObj? && HasStringId(element.fields) && HasUserObject(element.fields)
      && HasTwoMentions(element.fields)
    ensures v.Flagged? ==>
      var user := element.fields["user"].fields;
      && v.noteId == element.fields["id"].s
      && ("id" in user && user["id"].JStr? ==> v.userId == user["id"].s)
      && (!("id" in user && user["id"].JStr?) ==> v.userId == "")
      && ("host" in user && user["host"].JStr? ==> v.userHost == user["host"].s)
      && (!("host" in user && user["host"].JStr?) ==> v.userHost == "")
  {
    match element
    case JObj(post) =>
      if !HasStringId(post) then MissingId
      else if !HasUserObject(post) then MissingUser
      else
        var user := post["user"].fields;
        var userId := StringOr(user, "id");
        var userHost := StringOr(user, "host");
        if !HasTwoMentions(post) then TooFewMentions
        else Flagged(post["id"].s, userId, userHost)
    case _ => NotAnObject
  }

  /** The server's block list, when its settings hold one the bot accepts. */
  function BlockedHosts(settings: map<string, Json>): (r: Option<seq<string>>)
    ensures r.Some? <==>
      "blockedHosts" in settings && settings["blockedHosts"].JArr?
      && AllStrings(settings["blockedHosts"].items)
  {
    if "blockedHosts" in settings then
      StringSliceSpec(settings["blockedHosts"]);
      StringSlice(settings["blockedHosts"])
    else None
  }

  /** The calls issued for one element and the server settings afterwards. */
  datatype Step = Step(events: seq<Event>, settings: map<string, Json>)

  /** What processElement does with one element, as a value. */
  function PostStep(element: Json, settings: map<string, Json>, net: Network): (st: Step)
    ensures st.events == [] <==> !Classify(element).Flagged?
    ensures st.settings != settings ==> Classify(element).Flagged? && net.metaOk && net.updateOk
    ensures st.settings - {"blockedHosts"} == settings - {"blockedHosts"}
  {
    match Classify(element)
    case Flagged(noteId, userId, userHost) =>
      var calls := [DeleteNote(noteId), DeleteAccount(userId), GetMeta];
      if !net.metaOk then Step(calls, settings)
      else
        match BlockedHosts(settings) {
          case None => Step(calls, settings)
          case Some(hosts) =>
            if userHost in hosts then Step(calls, settings)
            else
              var updated := hosts + [userHost];
              var after := if net.updateOk
                then settings["blockedHosts" := JArr(HostsJson(updated))]
                else settings;
              Step(calls + [UpdateMeta(updated)], after)
        }
    case _ => Step([], settings)
  }

  /** The loop of main: every element in fetched order, each one seeing
      the server settings the previous ones left behind. */
  function RunSteps(elements: seq<Json>, settings: map<string, Json>, nets: seq<Network>): (r: Step)
    requires |nets| == |elements|
    ensures r.settings - {"blockedHosts"} == settings - {"blockedHosts"}
  {
    if elements == [] then Step([], settings)
    else
      var n := |elements| - 1;
      var before := RunSteps(elements[..n], settings, nets[..n]);
      var last := PostStep(elements[n], before.settings, nets[n]);
      Step(before.events + last.events, last.settings)
  }

  /** The bot against one server: the server's settings record and every
      call issued so far. */
  class Bot {
    var settings: map<string, Json>
    var trace: seq<Event>

    constructor (settings: map<string, Json>)
      ensures this.settings == settings && trace == []
    {
      this.settings := settings;
      trace := [];
    }

    /** `processElement`. */
    method ProcessElement(element: Json, net: Network)
      modifies this
      ensures trace == old(trace) + PostStep(element, old(settings), net).events
      ensures settings == PostStep(element, old(settings), net).settings
    {
      var verdict := Classify(element);
      if !verdict.Flagged? {
        return;
      }
      trace := trace + [DeleteNote(verdict.noteId)];
      trace := trace + [DeleteAccount(verdict.userId)];
      trace := trace + [GetMeta];
      if !net.metaOk {
        return;
      }
      var meta := settings;
      if "blockedHosts" !in meta {
        return;
      }
      var blockedHosts := GetStringSlice(meta["blockedHosts"]);
      if blockedHosts.None? {
        return;
      }
      var hosts := blockedHosts.value;
      var listed := Contains(hosts, verdict.userHost);
      if !listed {
        hosts := hosts + [verdict.userHost];
        trace := trace + [UpdateMeta(hosts)];
        if net.updateOk {
          settings := settings["blockedHosts" := JArr(HostsJson(hosts))];
        }
      }
    }

    /** The loop over the fetched elements in `main`. */
    method Run(elements: seq<Json>, nets: seq<Network>)
      requires |nets| == |elements|
      modifies this
      ensures trace == old(trace) + RunSteps(elements, old(settings), nets).events
      ensures settings == RunSteps(elements, old(settings), nets).settings
    {
      for i := 0 to |elements|
        invariant trace == old(trace) + RunSteps(elements[..i], old(settings), nets[..i]).events
        invariant settings == RunSteps(elements[..i], old(settings), nets[..i]).settings
      {
        assert elements[..i + 1][..i] == elements[..i];
        assert nets[..i + 1][..i] == nets[..i];
        ProcessElement(elements[i], nets[i]);
      }
      assert elements[..|elements|] == elements;
      assert nets[..|nets|] == nets;
    }
  }
}

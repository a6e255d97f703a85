/** Run ids: scheduled ids decode to what they were built from, and never collide with manual or redriven ones. */
module RunIds {
  import opened Options

  predicate ColonFree(s: string) { ':' !in s }

  /** The index of the last colon, or -1. */
  function LastColon(s: string): (i: int)
    ensures -1 <= i < |s|
    ensures i >= 0 ==> s[i] == ':'
    ensures forall k | i < k < |s| :: s[k] != ':'
  {
    if s == "" then -1
    else if s[|s| - 1] == ':' then |s| - 1
    else LastColon(s[..|s| - 1])
  }

  /** The last colon is the only colon with none after it. */
  lemma LastColonIs(s: string, head: string, tail: string)
    requires ColonFree(tail) && |s| == |head| + 1 + |tail|
    requires s[|head|] == ':' && s[|head| + 1..] == tail
    ensures LastColon(s) == |head|
  {
    forall k | |head| < k < |s| ensures s[k] != ':' { assert s[k] == tail[k - |head| - 1]; }
  }

  // ---------------------------------------------------------------- building

  /** A `toISOString` text: two colons, with the two minute digits between them. */
  datatype Iso = Iso(hour: string, minute: string, second: string) {
    predicate Valid() {
      && ColonFree(hour) && ColonFree(second)
      && |minute| == 2 && '0' <= minute[0] <= '9' && '0' <= minute[1] <= '9'
    }
    function Text(): string { hour + ":" + minute + ":" + second }
  }

  function NonEmpty(tenant: Option<string>): Option<string> { if tenant == Some("") then None else tenant }

  /** `buildRunId`; an empty tenant counts as none. */
  function BuildRunId(tenant: Option<string>, instance: string, time: string): Result<string, string> {
    if instance == "" then Err("instanceId is required")
    else if time == "" then Err("scheduledFireTime is required")
    else if NonEmpty(tenant).Some? then Ok(tenant.value + ":" + instance + ":" + time)
    else Ok(instance + ":" + time)
  }

  function ManualId(instance: string, uuid: string): string { instance + ":manual:" + uuid }

  function RedriveId(run: string, uuid: string): string { run + ":redrive:" + uuid }

  // ---------------------------------------------------------------- decoding

  datatype Origin = Origin(tenant: Option<string>, instance: string, time: string)

  /** What stands before the last colon; an id without one is kept whole. */
  function BeforeLast(s: string): string { if LastColon(s) < 0 then s else s[..LastColon(s)] }

  function AfterLast(s: string): string { s[LastColon(s) + 1..] }

  /** Cut at the third-last colon, then at the last colon of what is left. */
  function Decode(id: string): Origin {
    var head := BeforeLast(BeforeLast(BeforeLast(id)));
    var time := if |head| < |id| then id[|head| + 1..] else "";
    if LastColon(head) < 0 then Origin(None, head, time) else Origin(Some(BeforeLast(head)), AfterLast(head), time)
  }

  lemma CutLast(head: string, tail: string)
    requires ColonFree(tail)
    ensures BeforeLast(head + ":" + tail) == head && AfterLast(head + ":" + tail) == tail
  {
    var s := head + ":" + tail;
    LastColonIs(s, head, tail);
  }

  lemma CutTime(head: string, t: Iso)
    requires t.Valid()
    ensures BeforeLast(BeforeLast(BeforeLast(head + ":" + t.Text()))) == head
    ensures AfterLast(BeforeLast(head + ":" + t.Text())) == t.minute
  {
    var one := head + ":" + t.hour;
    var two := one + ":" + t.minute;
    assert head + ":" + t.Text() == two + ":" + t.second;
    assert ColonFree(t.minute);
    CutLast(two, t.second);
    CutLast(one, t.minute);
    CutLast(head, t.hour);
  }

  /** Decoding undoes building, whatever colons the tenant contains. */
  lemma DecodeBuild(tenant: Option<string>, instance: string, t: Iso)
    requires instance != "" && ColonFree(instance) && t.Valid()
    ensures BuildRunId(tenant, instance, t.Text()).Ok?
    ensures Decode(BuildRunId(tenant, instance, t.Text()).value) == Origin(NonEmpty(tenant), instance, t.Text())
  {
    var head := if NonEmpty(tenant).Some? then tenant.value + ":" + instance else instance;
    var id := BuildRunId(tenant, instance, t.Text()).value;
    assert id == head + ":" + t.Text();
    CutTime(head, t);
    assert id[|head| + 1..] == t.Text();
    if NonEmpty(tenant).Some? { CutLast(tenant.value, instance); }
  }

  /** Different tenants, instances or fire times never share a run id. */
  lemma BuildIsInjective(a: Option<string>, i: string, t: Iso, b: Option<string>, j: string, u: Iso)
    requires i != "" && ColonFree(i) && t.Valid() && j != "" && ColonFree(j) && u.Valid()
    requires BuildRunId(a, i, t.Text()) == BuildRunId(b, j, u.Text())
    ensures NonEmpty(a) == NonEmpty(b) && i == j && t.Text() == u.Text()
  {
    DecodeBuild(a, i, t);
    DecodeBuild(b, j, u);
  }

  /** The segment before the last colon. */
  function Kind(id: string): string { AfterLast(BeforeLast(id)) }

  lemma TaggedKind(head: string, tag: string, uuid: string, id: string)
    requires ColonFree(tag) && ColonFree(uuid) && id == head + (":" + tag + ":") + uuid
    ensures Kind(id) == tag
  {
    assert id == (head + ":" + tag) + ":" + uuid;
    CutLast(head + ":" + tag, uuid);
    CutLast(head, tag);
  }

  lemma ManualKind(instance: string, uuid: string)
    requires ColonFree(uuid)
    ensures Kind(ManualId(instance, uuid)) == "manual"
  {
    assert ":manual:" == ":" + "manual" + ":";
    TaggedKind(instance, "manual", uuid, ManualId(instance, uuid));
  }

  lemma RedriveKind(run: string, uuid: string)
    requires ColonFree(uuid)
    ensures Kind(RedriveId(run, uuid)) == "redrive"
  {
    assert ":redrive:" == ":" + "redrive" + ":";
    TaggedKind(run, "redrive", uuid, RedriveId(run, uuid));
  }

  lemma ScheduledKind(tenant: Option<string>, instance: string, t: Iso)
    requires instance != "" && t.Valid()
    ensures Kind(BuildRunId(tenant, instance, t.Text()).value) == t.minute
  {
    var head := if NonEmpty(tenant).Some? then tenant.value + ":" + instance else instance;
    assert BuildRunId(tenant, instance, t.Text()).value == head + ":" + t.Text();
    CutTime(head, t);
  }

  /** Scheduled, manual and redriven ids are told apart by the segment before the last colon. */
  lemma KindsDiffer(scheduled: string, tenant: Option<string>, instance: string, t: Iso,
                    other: string, run: string, uuid: string, uuid': string)
    requires instance != "" && t.Valid() && ColonFree(uuid) && ColonFree(uuid')
    requires BuildRunId(tenant, instance, t.Text()) == Ok(scheduled)
    ensures scheduled != ManualId(other, uuid)
    ensures scheduled != RedriveId(run, uuid')
    ensures ManualId(other, uuid) != RedriveId(run, uuid')
  {
    ScheduledKind(tenant, instance, t);
    ManualKind(other, uuid);
    RedriveKind(run, uuid');
    assert |Kind(scheduled)| == 2 && |"manual"| == 6 && |"redrive"| == 7;
  }
}

/**
 * The life of one Scaleway build instance (provider/defangscaleway/build.go): created, configured,
 * booted, waited for, and torn down on every way out, against a cloud whose every call may fail.
 */
module Teardown {
  import opened Options
  import opened Strings
  import opened Decimal

  /** A response of status 400 or more, or no usable response at all. */
  datatype ApiError = Http(status: int, body: string) | Network

  predicate IsNotFound(e: ApiError) {
    e.Http? && e.status == 404
  }

  /** The volume is still attached, or the failure is transient: waiting may help. */
  predicate IsRetryableVolumeDelete(e: ApiError) {
    && e.Http?
    && (e.status == 409 || e.status == 412 || e.status == 429 || e.status >= 500
        || (e.status == 400 && Contains(e.body, "in_use")))
  }

  /** What the API says when waiting helps: conflict, precondition, rate, any server error, or a volume in use. */
  lemma RetryableExactly(e: ApiError)
    ensures IsRetryableVolumeDelete(e) <==>
      e.Http? && (e.status in {409, 412, 429} || 500 <= e.status || (e.status == 400 && Mentions(e.body, "in_use")))
  {
    if e.Http? {
      ContainsMeaning(e.body, "in_use");
    }
  }

  ghost predicate Mentions(body: string, sub: string) {
    exists i :: 0 <= i <= |body| && sub <= body[i..]
  }

  /** The calls of a build's life, in the order in which they make sense; Broken once that order is left. */
  datatype Phase = Fresh | Created | Configured | Booted | Listing | Ending(refused: bool) | Cleaning | Broken

  datatype Op = Create | CloudInit | PowerOn | Describe | Stop | Destroy | DeleteItem

  /**
   * Cloud-init before power-on, the description before the end, a plain DELETE of the server only right after
   * a refused terminate action, and volumes and IPs last.
   */
  ghost function Next(p: Phase, op: Op, refused: bool): Phase {
    match op
    case Create => if p.Fresh? then (if refused then Fresh else Created) else Broken
    case CloudInit => if p.Created? then (if refused then Created else Configured) else Broken
    case PowerOn => if p.Configured? then (if refused then Configured else Booted) else Broken
    case Describe => if IsAlive(p) || p.Listing? then Listing else Broken
    case Stop => if p.Listing? || p.Ending? then Ending(refused) else Broken
    case Destroy => if p == Ending(true) then Ending(false) else Broken
    case DeleteItem => if p.Ending? || p.Cleaning? then Cleaning else Broken
  }

  ghost predicate IsAlive(p: Phase) {
    p.Created? || p.Configured? || p.Booted?
  }

  datatype ServerState = Absent | Present | Terminating

  /** What a server leaves behind: the API that deletes it, and its id. */
  datatype Leftover = SbsVolume(id: string) | LocalVolume(id: string) | PublicIp(id: string)

  datatype Volume = Volume(id: string, volumeType: string)

  /** The part of GET /servers/<id> that is read. */
  datatype ServerInfo = ServerInfo(volumes: seq<Volume>, publicIps: seq<string>, publicIp: Option<string>)

  /** What a server's description says it owns. */
  function Described(info: ServerInfo): set<Leftover> {
    (set v | v in info.volumes && v.id != "" && v.volumeType == "sbs_volume" :: SbsVolume(v.id))
    + (set v | v in info.volumes && v.id != "" && v.volumeType == "l_ssd" :: LocalVolume(v.id))
    + (set i | i in info.publicIps && i != "" :: PublicIp(i))
    + (match info.publicIp case Some(i) => (if i != "" then {PublicIp(i)} else {}) case None => {})
  }

  /** "Not found" in the API's own terms. */
  predicate SaysMissing(e: ApiError) {
    e.Http? && e.status == 404
  }

  const MINUTE_MS := 60_000
  const VOLUME_DETACH_TIMEOUT_MS := 5 * MINUTE_MS
  const VOLUME_DETACH_POLL_MS := 5_000
  const CLEANUP_RETRY_DELAY_MS := 2_000
  const ATTEMPTS := 3

  /**
   * The account, seen by one build: its server, and the volumes and IPs that still exist. Between any two
   * calls time passes, things may disappear on their own, and a server that is up and not yet described
   * may be given more of them (its dynamic IP, for one). Its volumes are attached to it: they cannot be
   * deleted while it is present. A failed call may or may not have taken effect; an answer is never a lie.
   */
  class Cloud {
    var server: ServerState
    var settled: bool            // the server has been described, and gains nothing more
    var leftovers: set<Leftover>
    var lapsed: set<Leftover>    // what disappeared on its own
    var now: nat
    var calls: nat
    var refused: nat   // calls that did not succeed, not counting the news that something does not exist
    ghost var early: nat     // attempts to delete what is attached to a server that is present
    ghost var phase: Phase

    constructor ()
      ensures server == Absent && leftovers == {} && calls == 0 && refused == 0 && phase == Fresh
    {
      server, settled, leftovers, lapsed := Absent, false, {}, {};
      now, calls, refused := 0, 0, 0;
      early, phase := 0, Fresh;
    }

    /** No server comes back, and once it is settled or on its way out nothing is added. */
    twostate predicate Declines()
      reads this
    {
      && (old(server) == Absent ==> server == Absent)
      && (old(server) == Terminating ==> server != Present)
      && (old(settled) ==> settled)
      && (old(settled) || old(server) != Present ==> leftovers <= old(leftovers))
      && old(lapsed) <= lapsed
      && old(now) <= now
      && old(refused) <= refused
      && old(early) <= early
    }

    /** What is gone went on its own. */
    twostate predicate DeletesNothing()
      reads this
    {
      old(leftovers) <= leftovers + lapsed
    }

    method Drift()
      modifies this`server, this`leftovers, this`lapsed, this`now
      ensures Declines() && DeletesNothing()
    {
      var elapsed: nat, vanishes: bool, gained: set<Leftover>, lost: set<Leftover> := *, *, *, *;
      now := now + elapsed;
      if server == Present && !settled {
        leftovers := leftovers + gained;
      }
      leftovers, lapsed := leftovers - lost, lapsed + lost;
      if vanishes {
        server := Absent;
      }
    }

    /** A request that did not succeed, with the answer `e`. */
    method AnyError() returns (e: ApiError)
      modifies this`refused
      ensures refused == old(refused) + 1
    {
      refused := refused + 1;
      var status: int, body: string, answered: bool := *, *, *;
      e := if answered then Http(status, body) else Network;
    }

    /** POST /servers. On failure the server may exist all the same, its reply lost. */
    method CreateServer() returns (e: Option<ApiError>)
      requires server == Absent && leftovers == {}
      modifies this
      ensures e.None? ==> server == Present
      ensures server == Absent ==> leftovers == {}
      ensures calls == old(calls) + 1 && old(now) <= now && old(refused) <= refused && early == old(early)
      ensures phase == Next(old(phase), Create, e.Some?)
    {
      Drift();
      calls := calls + 1;
      var created: bool, replied: bool, owned: set<Leftover> := *, *, *;
      phase := Next(phase, Create, !(created && replied));
      if created {
        server, settled, leftovers := Present, false, owned;
      }
      if created && replied {
        return None;
      }
      var err := AnyError();
      e := Some(err);
    }

    /** PATCH user_data */
    method SetCloudInit() returns (e: Option<ApiError>)
      modifies this
      ensures Declines() && calls == old(calls) + 1 && early == old(early)
      ensures refused == old(refused) + if e.Some? then 1 else 0
      ensures phase == Next(old(phase), CloudInit, e.Some?)
    {
      Drift();
      calls := calls + 1;
      var ok: bool := *;
      phase := Next(phase, CloudInit, !ok);
      if ok {
        return None;
      }
      var err := AnyError();
      e := Some(err);
    }

    /** The poweron action: what a booting server is given comes in its own time. */
    method PowerOnServer() returns (e: Option<ApiError>)
      modifies this
      ensures Declines() && calls == old(calls) + 1 && early == old(early)
      ensures refused == old(refused) + if e.Some? then 1 else 0
      ensures phase == Next(old(phase), PowerOn, e.Some?)
    {
      Drift();
      calls := calls + 1;
      var ok: bool := *;
      phase := Next(phase, PowerOn, !ok);
      if ok {
        return None;
      }
      var err := AnyError();
      e := Some(err);
    }

    /** GET /servers/<id>: a present server describes everything it still owns; 404 means it is gone. */
    method GetServer() returns (info: ServerInfo, e: Option<ApiError>)
      modifies this
      ensures Declines() && calls == old(calls) + 1 && early == old(early)
      ensures refused == old(refused) + if e.Some? && !SaysMissing(e.value) then 1 else 0
      ensures phase == Next(old(phase), Describe, e.Some?)
      ensures DeletesNothing()
      ensures e.None? ==> leftovers <= Described(info) && settled
      ensures e.Some? && SaysMissing(e.value) ==> server == Absent
    {
      Drift();
      calls := calls + 1;
      phase := Next(phase, Describe, true);
      info := ServerInfo([], [], None);
      if server == Absent {
        return info, Some(Http(404, ""));
      }
      var reply: ServerInfo, ok: bool := *, *;
      if ok && leftovers <= Described(reply) {
        settled := true;
        return reply, None;
      }
      var err := AnyError();
      e := Some(if SaysMissing(err) then Network else err);
    }

    /** The terminate action: accepted, it takes the server away in its own time. */
    method TerminateAction() returns (e: Option<ApiError>)
      modifies this
      ensures Declines() && calls == old(calls) + 1 && early == old(early)
      ensures refused == old(refused) + if e.Some? then 1 else 0
      ensures phase == Next(old(phase), Stop, e.Some?)
      ensures e.None? ==> server != Present
    {
      Drift();
      calls := calls + 1;
      var ok: bool, effect: bool := *, *;
      phase := Next(phase, Stop, !ok);
      if (ok || effect) && server == Present {
        server := Terminating;
      }
      if ok {
        return None;
      }
      var err := AnyError();
      e := Some(err);
    }

    /** DELETE /servers/<id> */
    method DeleteServer() returns (e: Option<ApiError>)
      modifies this
      ensures Declines() && calls == old(calls) + 1 && early == old(early)
      ensures refused == old(refused) + if e.Some? then 1 else 0
      ensures phase == Next(old(phase), Destroy, e.Some?)
      ensures e.None? ==> server == Absent
    {
      Drift();
      calls := calls + 1;
      var ok: bool, effect: bool := *, *;
      phase := Next(phase, Destroy, !ok);
      if ok || effect {
        server := Absent;
      }
      if ok {
        return None;
      }
      var err := AnyError();
      e := Some(err);
    }

    /** DELETE of a volume or an IP: 404 means it does not exist, 409 or 412 that it is attached. */
    method Delete(item: Leftover) returns (e: Option<ApiError>)
      modifies this
      ensures Declines() && calls == old(calls) + 1
      ensures refused == old(refused) + if e.Some? && !SaysMissing(e.value) then 1 else 0
      ensures phase == Next(old(phase), DeleteItem, e.Some?)
      ensures e.None? || SaysMissing(e.value) ==> item !in leftovers
      ensures old(server) != Present ==> early == old(early)
      ensures server == Present && !item.PublicIp? && item in leftovers ==>
        early == old(early) + 1 && e.Some? && e.value.Http? && (e.value.status == 409 || e.value.status == 412)
    {
      Drift();
      calls := calls + 1;
      phase := Next(phase, DeleteItem, true);
      if item !in leftovers {
        return Some(Http(404, ""));
      }
      var ok: bool, effect: bool, conflict: bool := *, *, *;
      if server == Present && !item.PublicIp? {
        refused, early := refused + 1, early + 1;
        return Some(Http(if conflict then 409 else 412, ""));
      }
      if ok || effect {
        leftovers := leftovers - {item};
      }
      if ok {
        return None;
      }
      var err := AnyError();
      e := Some(if SaysMissing(err) then Network else err);
    }

    /** common.SleepWithContext: at least the delay, unless the context is cancelled. */
    method Sleep(ms: nat) returns (cancelled: bool)
      modifies this`server, this`leftovers, this`lapsed, this`now
      ensures Declines() && DeletesNothing()
      ensures !cancelled ==> now >= old(now) + ms
    {
      Drift();
      cancelled := *;
      if !cancelled {
        now := now + ms;
      }
    }
  }

  // ----- cleaning up

  /** Why a cleanup stage failed; Undeleted carries one error per item in the source. */
  datatype CleanupError =
    | Api(e: ApiError)
    | TerminateAndDelete(action: ApiError, fallback: ApiError)
    | Undeleted(items: seq<Leftover>)
    | Cancelled

  datatype Warning =
    | CouldNotList(e: CleanupError)
    | NotRemoved(e: CleanupError)
    | LeftBehind(e: CleanupError)

  datatype Stage = List | Terminate | DeleteLeftovers

  datatype ServerResources = ServerResources(volumeIds: seq<string>, localVolumeIds: seq<string>, ipIds: seq<string>)

  const NO_RESOURCES := ServerResources([], [], [])

  function Volumes(res: ServerResources): seq<Leftover> {
    seq(|res.volumeIds|, i requires 0 <= i < |res.volumeIds| => SbsVolume(res.volumeIds[i]))
    + seq(|res.localVolumeIds|, i requires 0 <= i < |res.localVolumeIds| => LocalVolume(res.localVolumeIds[i]))
  }

  function Listed(res: ServerResources): set<Leftover> {
    (set i | i in res.volumeIds :: SbsVolume(i)) + (set i | i in res.localVolumeIds :: LocalVolume(i))
    + (set i | i in res.ipIds :: PublicIp(i))
  }

  /** The most DELETEs one volume can take: it is polled for at most five minutes. */
  const MAX_POLLS := VOLUME_DETACH_TIMEOUT_MS / VOLUME_DETACH_POLL_MS + 2

  /** The most DELETEs one pass over res can make. */
  function MaxDeletes(res: ServerResources): nat {
    MAX_POLLS * |Volumes(res)| + |res.ipIds|
  }

  function VolumesOfType(volumes: seq<Volume>, volumeType: string): set<string> {
    set v | v in volumes && v.id != "" && v.volumeType == volumeType :: v.id
  }

  method ReadVolumes(volumes: seq<Volume>) returns (sbs: seq<string>, local: seq<string>)
    ensures (set i | i in sbs) == VolumesOfType(volumes, "sbs_volume")
    ensures (set i | i in local) == VolumesOfType(volumes, "l_ssd")
  {
    sbs, local := [], [];
    for k := 0 to |volumes|
      invariant (set i | i in sbs) == VolumesOfType(volumes[..k], "sbs_volume")
      invariant (set i | i in local) == VolumesOfType(volumes[..k], "l_ssd")
    {
      var v := volumes[k];
      OneMoreVolume(volumes, k, "sbs_volume");
      OneMoreVolume(volumes, k, "l_ssd");
      if v.id == "" {
        continue;
      }
      if v.volumeType == "sbs_volume" {
        sbs := sbs + [v.id];
      } else if v.volumeType == "l_ssd" {
        local := local + [v.id];
      }
    }
    assert volumes[..|volumes|] == volumes;
  }

  lemma OneMoreVolume(volumes: seq<Volume>, k: nat, volumeType: string)
    requires k < |volumes|
    ensures VolumesOfType(volumes[..k + 1], volumeType) == VolumesOfType(volumes[..k], volumeType)
         + if volumes[k].id != "" && volumes[k].volumeType == volumeType then {volumes[k].id} else {}
  {
    assert volumes[..k + 1] == volumes[..k] + [volumes[k]];
  }

  method ReadIps(all: seq<string>) returns (ips: seq<string>)
    ensures forall i :: i in ips <==> i != "" && i in all
    ensures forall i, j :: 0 <= i < j < |ips| ==> ips[i] != ips[j]
  {
    ips := [];
    for k := 0 to |all|
      invariant forall i :: i in ips <==> i != "" && i in all[..k]
      invariant forall i, j :: 0 <= i < j < |ips| ==> ips[i] != ips[j]
    {
      assert all[..k + 1] == all[..k] + [all[k]];
      if all[k] != "" && all[k] !in ips {
        ips := ips + [all[k]];
      }
    }
    assert all[..|all|] == all;
  }

  /** Every described volume and IP is picked up, an IP once. */
  method ReadResources(info: ServerInfo) returns (res: ServerResources)
    ensures Listed(res) == Described(info)
    ensures forall i :: i in res.volumeIds <==> i != "" && Volume(i, "sbs_volume") in info.volumes
    ensures forall i :: i in res.localVolumeIds <==> i != "" && Volume(i, "l_ssd") in info.volumes
    ensures forall i :: i in res.ipIds <==> i != "" && (i in info.publicIps || info.publicIp == Some(i))
    ensures forall i, j :: 0 <= i < j < |res.ipIds| ==> res.ipIds[i] != res.ipIds[j]
  {
    var sbs, local := ReadVolumes(info.volumes);
    var ips := ReadIps(info.publicIps + if info.publicIp.Some? then [info.publicIp.value] else []);
    res := ServerResources(sbs, local, ips);
    PickedUp(info, res);
    OfType(info.volumes, sbs, "sbs_volume");
    OfType(info.volumes, local, "l_ssd");
  }

  lemma OfType(volumes: seq<Volume>, ids: seq<string>, volumeType: string)
    requires (set i | i in ids) == VolumesOfType(volumes, volumeType)
    ensures forall i :: i in ids <==> i != "" && Volume(i, volumeType) in volumes
  {
    forall i ensures i in ids <==> i != "" && Volume(i, volumeType) in volumes {
      assert i in ids <==> i in VolumesOfType(volumes, volumeType);
      if Volume(i, volumeType) in volumes {
        assert Volume(i, volumeType).id == i;
      }
    }
  }

  lemma PickedUp(info: ServerInfo, res: ServerResources)
    requires (set i | i in res.volumeIds) == VolumesOfType(info.volumes, "sbs_volume")
    requires (set i | i in res.localVolumeIds) == VolumesOfType(info.volumes, "l_ssd")
    requires forall i :: i in res.ipIds <==>
      i != "" && i in info.publicIps + if info.publicIp.Some? then [info.publicIp.value] else []
    ensures Listed(res) == Described(info)
  {
    forall x ensures x in Listed(res) <==> x in Described(info) {
      match x {
        case SbsVolume(i) =>
          assert i in res.volumeIds <==> i in VolumesOfType(info.volumes, "sbs_volume");
        case LocalVolume(i) =>
          assert i in res.localVolumeIds <==> i in VolumesOfType(info.volumes, "l_ssd");
        case PublicIp(i) =>
      }
    }
  }

  ghost predicate IsEnding(p: Phase) {
    p.Ending? || p.Cleaning?
  }

  /** The teardown's captured state: what was read off the server, and what was logged. */
  class Job {
    const cloud: Cloud
    var res: ServerResources
    var gone: bool
    var log: seq<Warning>

    constructor (cloud: Cloud)
      ensures this.cloud == cloud && res == NO_RESOURCES && !gone && log == []
    {
      this.cloud := cloud;
      res, gone, log := NO_RESOURCES, false, [];
    }

    /** What is listed was described by the server, so that nothing is added any more. */
    ghost predicate Ready()
      reads this, cloud
    {
      res != NO_RESOURCES ==> cloud.settled
    }

    /** The stage may start now; deleting nothing is always in time. */
    ghost predicate Timely(stage: Stage)
      reads this, cloud
    {
      match stage
      case List => IsAlive(cloud.phase) || cloud.phase.Listing?
      case Terminate => cloud.phase.Listing? || cloud.phase.Ending?
      case DeleteLeftovers => res == NO_RESOURCES || IsEnding(cloud.phase)
    }

    /** It has been gone through. */
    ghost predicate Reached(stage: Stage)
      reads this, cloud
    {
      match stage
      case List => cloud.phase.Listing?
      case Terminate => cloud.phase.Ending?
      case DeleteLeftovers => true
    }

    /** What a stage that reported no error has achieved. */
    ghost predicate StageDone(stage: Stage)
      reads this, cloud
    {
      match stage
      case List =>
        if gone then cloud.server == Absent && res == NO_RESOURCES else cloud.settled && cloud.leftovers <= Listed(res)
      case Terminate => cloud.server != Present
      case DeleteLeftovers => cloud.leftovers !! Listed(res)
    }

    /** What an error of a stage still tells. */
    ghost predicate FailureFits(stage: Stage, e: CleanupError)
      reads this, cloud
    {
      match stage
      case List => res == NO_RESOURCES && !gone
      case Terminate => e.TerminateAndDelete?
      case DeleteLeftovers =>
        && res != NO_RESOURCES
        && (e.Cancelled? || (e.Undeleted? && forall x :: x in cloud.leftovers && x in Listed(res) ==> x in e.items))
    }

    function MaxCalls(stage: Stage): nat
      reads this
    {
      match stage
      case List => 1
      case Terminate => 2
      case DeleteLeftovers => MaxDeletes(res)
    }

    method DeleteIfExists(item: Leftover) returns (e: Option<ApiError>)
      requires IsEnding(cloud.phase)
      modifies cloud
      ensures IsEnding(cloud.phase) && (old(cloud.server) != Present ==> cloud.early == old(cloud.early))
      ensures cloud.Declines() && cloud.calls == old(cloud.calls) + 1
      ensures e.None? ==> item !in cloud.leftovers
      ensures e.Some? ==> cloud.refused > old(cloud.refused)
    {
      e := cloud.Delete(item);
      if e.Some? && IsNotFound(e.value) {
        e := None;
      }
    }

    /** Polls until the volume comes free, for at most the detach timeout. */
    method DeleteVolume(item: Leftover) returns (e: Option<ApiError>, cancelled: bool)
      requires IsEnding(cloud.phase)
      modifies cloud
      ensures IsEnding(cloud.phase) && (old(cloud.server) != Present ==> cloud.early == old(cloud.early))
      ensures cloud.Declines()
      ensures e.None? ==> item !in cloud.leftovers && !cancelled
      ensures e.Some? ==> cloud.refused > old(cloud.refused)
      ensures e.Some? && !cancelled ==>
        !IsRetryableVolumeDelete(e.value) || cloud.now > old(cloud.now) + 300_000
      ensures cloud.calls <= old(cloud.calls) + MAX_POLLS
    {
      var deadline := cloud.now + VOLUME_DETACH_TIMEOUT_MS;
      ghost var polls := 0;
      while true
        invariant cloud.Declines()
        invariant IsEnding(cloud.phase) && (old(cloud.server) != Present ==> cloud.early == old(cloud.early))
        invariant cloud.calls == old(cloud.calls) + polls
        invariant cloud.now >= old(cloud.now) + polls * VOLUME_DETACH_POLL_MS
        invariant polls * VOLUME_DETACH_POLL_MS <= VOLUME_DETACH_TIMEOUT_MS + VOLUME_DETACH_POLL_MS
        decreases deadline + VOLUME_DETACH_POLL_MS - polls * VOLUME_DETACH_POLL_MS
      {
        e := DeleteIfExists(item);
        if e.None? {
          return None, false;
        }
        if !IsRetryableVolumeDelete(e.value) || cloud.now > deadline {
          return e, false;
        }
        cancelled := cloud.Sleep(VOLUME_DETACH_POLL_MS);
        if cancelled {
          return;
        }
        polls := polls + 1;
      }
    }

    method DeleteServerResources() returns (e: Option<CleanupError>)
      requires Ready() && Timely(DeleteLeftovers)
      modifies cloud
      ensures InTime() && (old(cloud.server) != Present ==> cloud.early == old(cloud.early))
      ensures res == NO_RESOURCES ==> cloud.DeletesNothing() && e.None?
      ensures cloud.Declines()
      ensures e.None? ==> StageDone(DeleteLeftovers)
      ensures e.Some? ==> FailureFits(DeleteLeftovers, e.value) && cloud.refused > old(cloud.refused)
      ensures cloud.calls <= old(cloud.calls) + MaxDeletes(res)
    {
      var volumes := Volumes(res);
      var errs, cancelled := DeleteVolumes(volumes);
      if cancelled {
        return Some(Cancelled);
      }
      var more := DeleteIps();
      errs := errs + more;
      forall x | x in cloud.leftovers && x in Listed(res) ensures x in errs {
        ListedItem(res, x);
      }
      e := if errs == [] then None else Some(Undeleted(errs));
    }

    /** Phases after a clean-up: as before if there was nothing to delete. */
    twostate predicate InTime()
      reads this, cloud
    {
      if res == NO_RESOURCES then cloud.phase == old(cloud.phase) else IsEnding(cloud.phase)
    }

    /** The first loop: each volume until it is gone, hopeless, or out of time. */
    method DeleteVolumes(volumes: seq<Leftover>) returns (errs: seq<Leftover>, cancelled: bool)
      requires volumes != [] ==> IsEnding(cloud.phase)
      requires volumes != [] ==> cloud.settled
      modifies cloud
      ensures volumes == [] ==> cloud.phase == old(cloud.phase) && cloud.DeletesNothing() && errs == [] && !cancelled
      ensures volumes != [] ==> IsEnding(cloud.phase)
      ensures old(cloud.server) != Present ==> cloud.early == old(cloud.early)
      ensures cloud.Declines()
      ensures !cancelled ==> forall x :: x in volumes && x in cloud.leftovers ==> x in errs
      ensures errs != [] || cancelled ==> cloud.refused > old(cloud.refused)
      ensures cloud.calls <= old(cloud.calls) + MAX_POLLS * |volumes|
    {
      errs := [];
      for k := 0 to |volumes|
        invariant cloud.Declines() && (volumes != [] ==> IsEnding(cloud.phase))
        invariant k == 0 ==> cloud.phase == old(cloud.phase) && cloud.DeletesNothing() && errs == []
        invariant old(cloud.server) != Present ==> cloud.early == old(cloud.early)
        invariant errs != [] ==> cloud.refused > old(cloud.refused)
        invariant forall j :: 0 <= j < k && volumes[j] in cloud.leftovers ==> volumes[j] in errs
        invariant cloud.calls <= old(cloud.calls) + MAX_POLLS * k
      {
        var err;
        err, cancelled := DeleteVolume(volumes[k]);
        if cancelled {
          return;
        }
        if err.Some? {
          errs := errs + [volumes[k]];
        }
      }
      cancelled := false;
    }

    /** The second loop: each IP once. */
    method DeleteIps() returns (errs: seq<Leftover>)
      requires res.ipIds != [] ==> IsEnding(cloud.phase)
      requires res.ipIds != [] ==> cloud.settled
      modifies cloud
      ensures res.ipIds == [] ==> cloud.phase == old(cloud.phase) && cloud.DeletesNothing() && errs == []
      ensures res.ipIds != [] ==> IsEnding(cloud.phase)
      ensures old(cloud.server) != Present ==> cloud.early == old(cloud.early)
      ensures cloud.Declines()
      ensures forall i :: i in res.ipIds && PublicIp(i) in cloud.leftovers ==> PublicIp(i) in errs
      ensures errs != [] ==> cloud.refused > old(cloud.refused)
      ensures res.ipIds == [] ==> cloud.leftovers == old(cloud.leftovers)
      ensures cloud.calls <= old(cloud.calls) + |res.ipIds|
    {
      errs := [];
      for k := 0 to |res.ipIds|
        invariant cloud.Declines() && (res.ipIds != [] ==> IsEnding(cloud.phase))
        invariant k == 0 ==>
          cloud.phase == old(cloud.phase) && cloud.DeletesNothing() && errs == [] && cloud.leftovers == old(cloud.leftovers)
        invariant old(cloud.server) != Present ==> cloud.early == old(cloud.early)
        invariant errs != [] ==> cloud.refused > old(cloud.refused)
        invariant forall j :: 0 <= j < k && PublicIp(res.ipIds[j]) in cloud.leftovers ==> PublicIp(res.ipIds[j]) in errs
        invariant cloud.calls <= old(cloud.calls) + k
      {
        var err := DeleteIfExists(PublicIp(res.ipIds[k]));
        if err.Some? {
          errs := errs + [PublicIp(res.ipIds[k])];
        }
      }
    }

    /** The terminate action first; a plain DELETE for a server that never booted. */
    method TerminateServer() returns (e: Option<CleanupError>)
      requires Timely(Terminate)
      modifies cloud
      ensures cloud.phase.Ending? && cloud.early == old(cloud.early)
      ensures cloud.Declines()
      ensures e.None? ==> StageDone(Terminate)
      ensures e.Some? ==> FailureFits(Terminate, e.value) && cloud.refused > old(cloud.refused)
      ensures cloud.calls <= old(cloud.calls) + 2
    {
      var action := cloud.TerminateAction();
      if action.Some? {
        var fallback := cloud.DeleteServer();
        if fallback.Some? {
          return Some(TerminateAndDelete(action.value, fallback.value));
        }
      }
      e := None;
    }

    method ListServer() returns (e: Option<CleanupError>)
      requires Timely(List)
      modifies this`res, this`gone, cloud
      ensures cloud.phase == Listing && cloud.early == old(cloud.early)
      ensures cloud.Declines()
      ensures e.None? ==> StageDone(List)
      ensures e.Some? ==> FailureFits(List, e.value) && cloud.refused > old(cloud.refused)
      ensures cloud.calls == old(cloud.calls) + 1 && Ready() && cloud.DeletesNothing()
    {
      var info, err := cloud.GetServer();
      if err.Some? {
        res, gone := NO_RESOURCES, IsNotFound(err.value);
        return if gone then None else Some(Api(err.value));
      }
      gone := false;
      res := ReadResources(info);
      e := None;
    }

    method Attempt(stage: Stage) returns (e: Option<CleanupError>)
      requires Ready() && Timely(stage)
      modifies this`res, this`gone, cloud
      ensures Ready() && Timely(stage) && Reached(stage) && (stage == DeleteLeftovers ==> InTime())
      ensures stage != DeleteLeftovers || old(cloud.server) != Present ==> cloud.early == old(cloud.early)
      ensures stage == List || (stage == DeleteLeftovers && res == NO_RESOURCES) ==> cloud.DeletesNothing()
      ensures cloud.Declines()
      ensures e.None? ==> StageDone(stage)
      ensures e.Some? ==> FailureFits(stage, e.value) && cloud.refused > old(cloud.refused)
      ensures stage != List ==> res == old(res) && gone == old(gone)
      ensures cloud.calls <= old(cloud.calls) + MaxCalls(stage)
    {
      match stage
      case List => e := ListServer();
      case Terminate => e := TerminateServer();
      case DeleteLeftovers => e := DeleteServerResources();
    }

    /** Up to three attempts with a pause between them; the last error is the one reported. */
    method RetryCleanup(stage: Stage) returns (e: Option<CleanupError>)
      requires Ready() && Timely(stage)
      modifies this`res, this`gone, cloud
      ensures Ready() && Timely(stage) && Reached(stage) && (stage == DeleteLeftovers ==> InTime())
      ensures stage != DeleteLeftovers || old(cloud.server) != Present ==> cloud.early == old(cloud.early)
      ensures stage == List || (stage == DeleteLeftovers && res == NO_RESOURCES) ==> cloud.DeletesNothing()
      ensures cloud.Declines()
      ensures e.None? ==> StageDone(stage)
      ensures e.Some? ==> FailureFits(stage, e.value) && cloud.refused >= old(cloud.refused) + 3
      ensures stage != List ==> res == old(res) && gone == old(gone)
      ensures cloud.calls <= old(cloud.calls) + 3 * MaxCalls(stage)
    {
      e := None;
      for i := 0 to ATTEMPTS
        invariant cloud.Declines()
        invariant Ready() && Timely(stage) && (i > 0 ==> e.Some? && FailureFits(stage, e.value))
        invariant i > 0 ==> Reached(stage)
        invariant stage == DeleteLeftovers ==> if i == 0 then cloud.phase == old(cloud.phase) else InTime()
        invariant stage != DeleteLeftovers || old(cloud.server) != Present ==> cloud.early == old(cloud.early)
        invariant stage == List || (stage == DeleteLeftovers && res == NO_RESOURCES) ==> cloud.DeletesNothing()
        invariant cloud.refused >= old(cloud.refused) + i
        invariant stage != List ==> res == old(res) && gone == old(gone)
        invariant cloud.calls <= old(cloud.calls) + i * MaxCalls(stage)
      {
        e := Attempt(stage);
        if e.None? {
          return;
        }
        if i < ATTEMPTS - 1 {
          var _ := cloud.Sleep(CLEANUP_RETRY_DELAY_MS);
        }
      }
    }

    /** Everything the build leaves in the account is spoken for by a warning. */
    ghost predicate NoSilentLeak()
      reads this, cloud
    {
      && (cloud.server == Present ==> exists e :: NotRemoved(e) in log)
      && forall x :: x in cloud.leftovers ==> exists w :: w in log && Covers(w, x)
    }

    method TeardownServer()
      requires log == [] && IsAlive(cloud.phase)
      modifies this, cloud
      ensures cloud.Declines()
      ensures NoSilentLeak() <==> !gone || cloud.leftovers == {}
      ensures gone ==> log == [] && cloud.DeletesNothing()
      ensures |log| <= 3 && cloud.refused >= old(cloud.refused) + 3 * |log|
      ensures cloud.calls <= old(cloud.calls) + 3 * (1 + 2 + MaxDeletes(res))
      ensures cloud.phase != Broken && (!gone ==> IsEnding(cloud.phase))
      ensures cloud.early == old(cloud.early) || exists e :: NotRemoved(e) in log
    {
      res, gone := NO_RESOURCES, false;
      var listing, removal := ListAndTerminate();
      assert removal.Some? ==> NotRemoved(removal.value) in log;
      var deletion := RetryCleanup(DeleteLeftovers);
      log := log + Logged(DeleteLeftovers, deletion);
      WarningsCover(listing, removal, deletion);
    }

    /** The server's own stages: what it owns is read before it goes, since afterwards nothing links them. */
    method ListAndTerminate() returns (listing: Option<CleanupError>, removal: Option<CleanupError>)
      requires log == [] && res == NO_RESOURCES && !gone && IsAlive(cloud.phase)
      modifies this, cloud
      ensures cloud.Declines() && cloud.early == old(cloud.early)
      ensures log == Logged(List, listing) + Logged(Terminate, removal)
      ensures cloud.refused >= old(cloud.refused) + 3 * |log| && cloud.calls <= old(cloud.calls) + 9
      ensures Ready() && Timely(DeleteLeftovers)
      ensures gone ==> listing.None? && removal.None? && res == NO_RESOURCES
      ensures gone ==> cloud.server == Absent && cloud.DeletesNothing() && cloud.phase.Listing?
      ensures !gone && listing.None? ==> cloud.settled && cloud.leftovers <= Listed(res)
      ensures !gone ==> cloud.phase.Ending? && (removal.None? ==> cloud.server != Present)
    {
      listing := RetryCleanup(List);
      log := Logged(List, listing);
      removal := None;
      if !gone {
        removal := RetryCleanup(Terminate);
        log := log + Logged(Terminate, removal);
      }
    }

    /** What the three stages report adds up. */
    lemma WarningsCover(listing: Option<CleanupError>, removal: Option<CleanupError>, deletion: Option<CleanupError>)
      requires log == Logged(List, listing) + Logged(Terminate, removal) + Logged(DeleteLeftovers, deletion)
      requires gone ==> listing.None? && removal.None? && cloud.server == Absent && res == NO_RESOURCES
      requires !gone && listing.None? ==> cloud.leftovers <= Listed(res)
      requires !gone && removal.None? ==> cloud.server != Present
      requires deletion.None? ==> StageDone(DeleteLeftovers)
      requires deletion.Some? ==> FailureFits(DeleteLeftovers, deletion.value)
      ensures NoSilentLeak() <==> !gone || cloud.leftovers == {}
      ensures gone ==> log == []
    {
      assert listing.Some? ==> CouldNotList(listing.value) in log;
      assert removal.Some? ==> NotRemoved(removal.value) in log;
      assert deletion.Some? ==> LeftBehind(deletion.value) in log;
    }
  }

  /** One warning for each stage that failed. */
  function Logged(stage: Stage, e: Option<CleanupError>): seq<Warning> {
    if e.None? then []
    else
      match stage
      case List => [CouldNotList(e.value)]
      case Terminate => [NotRemoved(e.value)]
      case DeleteLeftovers => [LeftBehind(e.value)]
  }

  /** A warning covers an item it names, or any item when it could not tell them apart. */
  ghost predicate Covers(w: Warning, x: Leftover) {
    match w
    case CouldNotList(_) => true
    case NotRemoved(_) => false
    case LeftBehind(e) => e.Cancelled? || (e.Undeleted? && x in e.items)
  }

  lemma ListedItem(res: ServerResources, x: Leftover)
    requires x in Listed(res)
    ensures x in Volumes(res) || (x.PublicIp? && x.id in res.ipIds)
  {
    if x.SbsVolume? {
      var i :| 0 <= i < |res.volumeIds| && res.volumeIds[i] == x.id;
      assert Volumes(res)[i] == x;
    } else if x.LocalVolume? {
      var i :| 0 <= i < |res.localVolumeIds| && res.localVolumeIds[i] == x.id;
      assert Volumes(res)[|res.volumeIds| + i] == x;
    }
  }

  // ----- the build

  datatype BuildError =
    | InvalidSource
    | MissingCredentials
    | CreateFailed(e: ApiError)
    | CloudInitFailed(e: ApiError)
    | PowerOnFailed(e: ApiError)
    | PollFailed(e: ApiError)
    | BuildTimeout
    | BuildFailed
    | ContextCancelled

  /** The errors that end a build before it has a server. */
  predicate BeforeServer(e: BuildError) {
    e.InvalidSource? || e.MissingCredentials? || e.CreateFailed?
  }

  /** The errors of the wait itself. */
  predicate AfterBoot(e: BuildError) {
    !BeforeServer(e) && !e.CloudInitFailed? && !e.PowerOnFailed?
  }

  /** "s3://bucket/key", with both parts non-empty. */
  function ParseS3Source(source: string): (r: Option<(string, string)>)
    ensures r.Some? ==> source == "s3://" + r.value.0 + "/" + r.value.1
    ensures r.Some? ==> r.value.0 != "" && '/' !in r.value.0 && r.value.1 != ""
  {
    if !("s3://" <= source) then None
    else
      var rest := source[|"s3://"|..];
      var i := IndexOf(rest, '/');
      if i <= 0 || i == |rest| - 1 then None
      else
        assert rest == rest[..i] + "/" + rest[i + 1..];
        Some((rest[..i], rest[i + 1..]))
  }

  /** And every such URL is accepted. */
  lemma ParseS3SourceComplete(bucket: string, key: string)
    requires bucket != "" && '/' !in bucket && key != ""
    ensures ParseS3Source("s3://" + bucket + "/" + key) == Some((bucket, key))
  {
    var rest := bucket + "/" + key;
    assert ("s3://" + bucket + "/" + key)[|"s3://"|..] == rest;
    FirstIndex(bucket, '/', key);
    assert rest[..|bucket|] == bucket && rest[|bucket| + 1..] == key;
  }

  const POLL_INTERVAL_MS := 3_000

  /** The first marker in the log decides; a line that carries both counts as success. */
  function Verdict(lines: seq<string>): Option<bool> {
    if lines == [] then None
    else if Contains(lines[0], "RESULT:SUCCESS") then Some(true)
    else if Contains(lines[0], "RESULT:FAILURE") then Some(false)
    else Verdict(lines[1..])
  }

  lemma {:induction false} VerdictAppend(a: seq<string>, b: seq<string>)
    requires Verdict(a).None?
    ensures Verdict(a + b) == Verdict(b)
  {
    if a == [] {
      assert a + b == b;
    } else {
      assert (a + b)[1..] == a[1..] + b;
      VerdictAppend(a[1..], b);
    }
  }

  lemma {:induction false} VerdictSettled(a: seq<string>, b: seq<string>)
    requires Verdict(a).Some?
    ensures Verdict(a + b) == Verdict(a)
  {
    assert (a + b)[0] == a[0] && (a + b)[1..] == a[1..] + b;
    if Verdict(a[1..]).Some? {
      VerdictSettled(a[1..], b);
    }
  }

  // ----- the log store

  /** A line under the build's log source; an earlier build of the same destination wrote to it too. */
  datatype Entry = Entry(time: int, line: string)

  predicate InOrder(log: seq<Entry>) {
    forall i, j :: 0 <= i < j < |log| ==> log[i].time <= log[j].time
  }

  function LinesFrom(log: seq<Entry>, start: int): seq<string> {
    if log == [] then []
    else (if start <= log[0].time then [log[0].line] else []) + LinesFrom(log[1..], start)
  }

  function LinesBetween(log: seq<Entry>, start: int, end: int): seq<string> {
    if log == [] then []
    else (if start <= log[0].time < end then [log[0].line] else []) + LinesBetween(log[1..], start, end)
  }

  const LIMIT := 1000

  function Take(lines: seq<string>, n: nat): seq<string> {
    if |lines| <= n then lines else lines[..n]
  }

  /** One query: forward in time, and cut at the limit. */
  function Answer(log: seq<Entry>, start: int, end: int): seq<string> {
    Take(LinesBetween(log, start, end), LIMIT)
  }

  /** The verdict any number of polls can come to. */
  function Decision(log: seq<Entry>, start: int): Option<bool> {
    Verdict(Take(LinesFrom(log, start), LIMIT))
  }

  class Cockpit {
    var log: seq<Entry>

    /** Lines may have arrived since the last query. */
    method QueryLogs(start: int, end: int) returns (lines: seq<string>, e: Option<ApiError>)
      requires InOrder(log)
      modifies this
      ensures InOrder(log) && old(log) <= log
      ensures e.None? ==> lines == Answer(log, start, end)
    {
      var more: seq<Entry>, ok: bool, status: int, body: string := *, *, *, *;
      if InOrder(log + more) {
        log := log + more;
      }
      if ok {
        return Answer(log, start, end), None;
      }
      return [], Some(Http(status, body));
    }
  }

  lemma TakePrefix(a: seq<string>, b: seq<string>, n: nat)
    requires a <= b
    ensures Take(a, n) <= Take(b, n)
  {
  }

  lemma {:induction false} LinesFromAppend(log: seq<Entry>, more: seq<Entry>, start: int)
    ensures LinesFrom(log + more, start) == LinesFrom(log, start) + LinesFrom(more, start)
  {
    if log == [] {
      assert log + more == more;
    } else {
      assert (log + more)[0] == log[0] && (log + more)[1..] == log[1..] + more;
      LinesFromAppend(log[1..], more, start);
    }
  }

  lemma {:induction false} NothingBetween(log: seq<Entry>, start: int, end: int)
    requires forall i :: 0 <= i < |log| ==> end <= log[i].time
    ensures LinesBetween(log, start, end) == []
  {
    if log != [] {
      NothingBetween(log[1..], start, end);
    }
  }

  lemma PrefixAfter(head: seq<string>, a: seq<string>, b: seq<string>)
    requires a <= b
    ensures head + a <= head + b
  {
  }

  /** What is asked for up to some time is what comes first of what is asked for up to a later one... */
  lemma {:induction false} BetweenGrows(log: seq<Entry>, start: int, end: int, later: int)
    requires InOrder(log) && end <= later
    ensures LinesBetween(log, start, end) <= LinesBetween(log, start, later)
  {
    if log != [] {
      if end <= log[0].time {
        NothingBetween(log, start, end);
      } else {
        BetweenGrows(log[1..], start, end, later);
        PrefixAfter(if start <= log[0].time then [log[0].line] else [],
                    LinesBetween(log[1..], start, end), LinesBetween(log[1..], start, later));
      }
    }
  }

  /** ...and of the whole window. */
  lemma {:induction false} BetweenOpens(log: seq<Entry>, start: int, end: int)
    requires InOrder(log)
    ensures LinesBetween(log, start, end) <= LinesFrom(log, start)
  {
    if log != [] {
      if end <= log[0].time {
        NothingBetween(log, start, end);
      } else {
        BetweenOpens(log[1..], start, end);
        PrefixAfter(if start <= log[0].time then [log[0].line] else [],
                    LinesBetween(log[1..], start, end), LinesFrom(log[1..], start));
      }
    }
  }

  lemma {:induction false} BetweenAppend(log: seq<Entry>, more: seq<Entry>, start: int, end: int)
    ensures LinesBetween(log + more, start, end) == LinesBetween(log, start, end) + LinesBetween(more, start, end)
  {
    if log == [] {
      assert log + more == more;
    } else {
      assert (log + more)[0] == log[0] && (log + more)[1..] == log[1..] + more;
      BetweenAppend(log[1..], more, start, end);
    }
  }

  /** A later answer starts with every earlier one. */
  lemma AnswerGrows(log: seq<Entry>, log': seq<Entry>, start: int, end: int, end': int)
    requires log <= log' && InOrder(log') && end <= end'
    ensures Answer(log, start, end) <= Answer(log', start, end')
  {
    var more := log'[|log|..];
    assert log' == log + more;
    BetweenAppend(log, more, start, end);
    BetweenGrows(log', start, end, end');
    TakePrefix(LinesBetween(log, start, end), LinesBetween(log', start, end'), LIMIT);
  }

  /** A verdict reached by one poll is the decision, whatever arrives afterwards. */
  lemma AnswerDecides(log: seq<Entry>, start: int, end: int)
    requires InOrder(log) && Verdict(Answer(log, start, end)).Some?
    ensures Decision(log, start) == Verdict(Answer(log, start, end))
  {
    BetweenOpens(log, start, end);
    var a, d := Answer(log, start, end), Take(LinesFrom(log, start), LIMIT);
    TakePrefix(LinesBetween(log, start, end), LinesFrom(log, start), LIMIT);
    VerdictSettled(a, d[|a|..]);
    assert a + d[|a|..] == d;
  }

  lemma PrefixUndecided(a: seq<string>, b: seq<string>)
    requires a <= b && Verdict(b).None?
    ensures Verdict(a).None?
  {
    assert a + b[|a|..] == b;
    if Verdict(a).Some? {
      VerdictSettled(a, b[|a|..]);
    }
  }

  // ----- whose verdict it is

  predicate IsMarker(line: string) {
    Contains(line, "RESULT:SUCCESS") || Contains(line, "RESULT:FAILURE")
  }

  /** How many lines come before the first marker. */
  function FirstMarker(lines: seq<string>): nat {
    if lines == [] || IsMarker(lines[0]) then 0 else 1 + FirstMarker(lines[1..])
  }

  lemma {:induction false} TakeVerdict(lines: seq<string>, n: nat)
    requires Verdict(lines).Some?
    ensures Verdict(Take(lines, n)) == if FirstMarker(lines) < n then Verdict(lines) else None
  {
    if n > 0 && !IsMarker(lines[0]) {
      TakeVerdict(lines[1..], n - 1);
      assert Take(lines, n)[1..] == Take(lines[1..], n - 1);
    } else if n > 0 {
      assert Take(lines, n)[0] == lines[0];
    }
  }

  lemma TakeConcat(a: seq<string>, b: seq<string>, n: nat)
    ensures |a| < n ==> Take(a + b, n) == a + Take(b, n - |a|)
    ensures |a| >= n ==> Take(a + b, n) == Take(a, n)
  {
  }

  /** What earlier builds left in the window comes first; what is left of the limit is the build's. */
  lemma DecisionOf(before: seq<Entry>, own: seq<Entry>, start: int)
    requires Verdict(LinesFrom(own, start)).Some?
    ensures var stale, lines := Take(LinesFrom(before, start), LIMIT), LinesFrom(own, start);
      Decision(before + own, start)
      == if Verdict(stale).Some? then Verdict(stale)
         else if |stale| + FirstMarker(lines) < LIMIT then Verdict(lines) else None
  {
    var stale, lines := LinesFrom(before, start), LinesFrom(own, start);
    LinesFromAppend(before, own, start);
    TakeConcat(stale, lines, LIMIT);
    if |stale| < LIMIT {
      VerdictOfBoth(stale, lines, LIMIT - |stale|);
    }
  }

  /**
   * The first marker the build writes decides iff what an earlier build left in the window already says the
   * same, or says nothing and leaves room for the build's lines up to that marker. A build that writes 1000
   * lines before its marker is never seen to end.
   */
  lemma OwnVerdictExactly(before: seq<Entry>, own: seq<Entry>, start: int)
    requires Verdict(LinesFrom(own, start)).Some?
    ensures var stale, lines := Take(LinesFrom(before, start), LIMIT), LinesFrom(own, start);
      Decision(before + own, start) == Verdict(lines) <==>
        Verdict(stale) == Verdict(lines) || (Verdict(stale).None? && |stale| + FirstMarker(lines) < LIMIT)
  {
    DecisionOf(before, own, start);
  }

  lemma VerdictOfBoth(stale: seq<string>, lines: seq<string>, room: nat)
    requires Verdict(lines).Some?
    ensures Verdict(stale + Take(lines, room))
         == if Verdict(stale).Some? then Verdict(stale) else if FirstMarker(lines) < room then Verdict(lines) else None
  {
    TakeVerdict(lines, room);
    if Verdict(stale).None? {
      VerdictAppend(stale, Take(lines, room));
    } else {
      VerdictSettled(stale, Take(lines, room));
    }
  }

  // ----- what the build script relays

  const SUCCESS_LINE := "RESULT:SUCCESS"
  const FAILURE_LINE := "RESULT:FAILURE"

  function ExitLine(exitCode: nat): string {
    "BUILD_EXIT=" + Itoa(exitCode)
  }

  /** The log of docker's output and exit code, line by line, and then the verdict the script reads off it. */
  function Relayed(output: seq<string>, exitCode: nat): seq<string> {
    var buildLog := output + [ExitLine(exitCode)];
    buildLog + [MarkerOf(buildLog)]
  }

  function MarkerOf(buildLog: seq<string>): string {
    if ExitLine(0) in buildLog then SUCCESS_LINE else FAILURE_LINE
  }

  lemma {:induction false} ContainsFirst(s: string, sub: string)
    requires sub != "" && Contains(s, sub)
    ensures sub[0] in s
  {
    if !(sub <= s) {
      ContainsFirst(s[1..], sub);
    }
  }

  lemma ExitLineIsNoMarker(exitCode: nat)
    ensures !IsMarker(ExitLine(exitCode))
    ensures ExitLine(exitCode) == ExitLine(0) <==> exitCode == 0
  {
    var line := ExitLine(exitCode);
    assert 'R' !in line;
    if Contains(line, SUCCESS_LINE) {
      ContainsFirst(line, SUCCESS_LINE);
    }
    if Contains(line, FAILURE_LINE) {
      ContainsFirst(line, FAILURE_LINE);
    }
    if line == ExitLine(0) {
      assert line[|"BUILD_EXIT="|..] == Itoa(exitCode) && ExitLine(0)[|"BUILD_EXIT="|..] == Itoa(0);
      ItoaInjective(exitCode, 0);
    }
  }

  lemma MarkersAreMarkers()
    ensures Verdict([SUCCESS_LINE]) == Some(true) && IsMarker(SUCCESS_LINE)
    ensures Verdict([FAILURE_LINE]) == Some(false) && IsMarker(FAILURE_LINE)
    ensures SUCCESS_LINE == "RESULT:SUCCESS" && FAILURE_LINE == "RESULT:FAILURE"
  {
    assert !(SUCCESS_LINE <= FAILURE_LINE) by {
      assert SUCCESS_LINE[7] != FAILURE_LINE[7];
    }
    ShorterContainsNothing(FAILURE_LINE[1..], SUCCESS_LINE);
  }

  lemma {:induction false} ShorterContainsNothing(s: string, sub: string)
    requires |s| < |sub|
    ensures !Contains(s, sub)
  {
    if s != "" {
      ShorterContainsNothing(s[1..], sub);
    }
  }

  lemma {:induction false} MarkerAfter(said: seq<string>, line: string, marker: string)
    requires !IsMarker(line) && IsMarker(marker)
    ensures var lines := said + [line, marker];
      && (Verdict(said).Some? ==> Verdict(lines) == Verdict(said) && FirstMarker(lines) == FirstMarker(said))
      && (Verdict(said).None? ==> Verdict(lines) == Verdict([marker]) && FirstMarker(lines) == |said| + 1)
  {
    var lines := said + [line, marker];
    if said == [] {
      assert lines[0] == line && lines[1..] == [marker] && [marker][1..] == [];
    } else {
      assert lines[0] == said[0] && lines[1..] == said[1..] + [line, marker];
      if !IsMarker(said[0]) {
        MarkerAfter(said[1..], line, marker);
      }
    }
  }

  /**
   * The outcome of docker's run is reported iff nothing else gets in first: a verdict left by an earlier build,
   * a marker among the lines the build itself prints, a printed line that looks like exit code 0, or more
   * lines than one answer holds. `earlier` is what the script relays before it starts docker.
   */
  lemma OutcomeReportedExactly(
    before: seq<Entry>, own: seq<Entry>, start: int, earlier: seq<string>, output: seq<string>, exitCode: nat)
    requires LinesFrom(own, start) == earlier + Relayed(output, exitCode)
    ensures var stale, said, outcome := Take(LinesFrom(before, start), LIMIT), earlier + output, exitCode == 0;
      Decision(before + own, start) == Some(outcome) <==>
        || Verdict(stale) == Some(outcome)
        || (Verdict(stale).None?
            && if Verdict(said).Some? then Verdict(said) == Some(outcome) && |stale| + FirstMarker(said) < LIMIT
               else (ExitLine(0) in output ==> outcome) && |stale| + |said| + 1 < LIMIT)
  {
    var said := earlier + output;
    RelayedVerdict(earlier, output, exitCode);
    DecisionOf(before, own, start);
  }

  lemma RelayedVerdict(earlier: seq<string>, output: seq<string>, exitCode: nat)
    ensures var said, lines := earlier + output, earlier + Relayed(output, exitCode);
      && (Verdict(said).Some? ==> Verdict(lines) == Verdict(said) && FirstMarker(lines) == FirstMarker(said))
      && (Verdict(said).None? ==>
           Verdict(lines) == Some(ExitLine(0) in output || exitCode == 0) && FirstMarker(lines) == |said| + 1)
  {
    var marker := MarkerOf(output + [ExitLine(exitCode)]);
    MarkerMeaning(output, exitCode);
    MarkerAfter(earlier + output, ExitLine(exitCode), marker);
    RelayedText(earlier, output, ExitLine(exitCode), marker);
  }

  lemma RelayedText(earlier: seq<string>, output: seq<string>, line: string, marker: string)
    ensures earlier + (output + [line] + [marker]) == earlier + output + [line, marker]
  {
  }

  lemma MarkerMeaning(output: seq<string>, exitCode: nat)
    ensures var marker := MarkerOf(output + [ExitLine(exitCode)]);
      IsMarker(marker) && Verdict([marker]) == Some(ExitLine(0) in output || exitCode == 0)
    ensures !IsMarker(ExitLine(exitCode))
  {
    ExitLineIsNoMarker(exitCode);
    MarkersAreMarkers();
  }

  /** The verdict on one poll's lines. */
  method Scan(lines: seq<string>) returns (r: Option<bool>)
    ensures r == Verdict(lines)
  {
    for k := 0 to |lines|
      invariant Verdict(lines) == Verdict(lines[k..])
    {
      if Contains(lines[k], "RESULT:SUCCESS") {
        return Some(true);
      } else if Contains(lines[k], "RESULT:FAILURE") {
        return Some(false);
      }
      assert lines[k..][1..] == lines[k + 1..];
    }
    r := None;
  }

  /**
   * Success and failure are what the first marker among the first lines of the window says; a time-out
   * means that there was none to begin with.
   */
  method WaitForInstanceBuild(cloud: Cloud, cockpit: Cockpit, maxWaitSeconds: int)
    returns (failure: Option<BuildError>)
    requires InOrder(cockpit.log)
    modifies cloud`server, cloud`leftovers, cloud`lapsed, cloud`now, cockpit
    ensures cloud.Declines() && InOrder(cockpit.log) && old(cockpit.log) <= cockpit.log
    ensures failure.None? ==> Decision(cockpit.log, old(cloud.now) - 60_000) == Some(true)
    ensures failure == Some(BuildFailed) ==> Decision(cockpit.log, old(cloud.now) - 60_000) == Some(false)
    ensures failure == Some(BuildTimeout) ==> cloud.now > old(cloud.now) + maxWaitSeconds * 1000
    ensures failure == Some(BuildTimeout) && maxWaitSeconds >= 0 ==>
      Verdict(Answer(old(cockpit.log), old(cloud.now) - MINUTE_MS, old(cloud.now))).None?
    ensures failure.Some? ==> AfterBoot(failure.value)
  {
    var deadline := cloud.now + maxWaitSeconds * 1000;
    var start := cloud.now - MINUTE_MS;
    ghost var log0, now0, polled := cockpit.log, cloud.now, false;
    while true
      invariant cloud.Declines() && InOrder(cockpit.log) && log0 <= cockpit.log
      invariant !polled ==> cloud.now == now0
      invariant polled ==> Verdict(Answer(log0, start, now0)).None?
      decreases deadline - cloud.now
    {
      if cloud.now > deadline {
        return Some(BuildTimeout);
      }
      var stop := cloud.Sleep(POLL_INTERVAL_MS);
      if stop {
        return Some(ContextCancelled);
      }
      var lines, e := cockpit.QueryLogs(start, cloud.now);
      if e.Some? {
        return Some(PollFailed(e.value));
      }
      var verdict := Scan(lines);
      match verdict {
        case Some(ok) =>
          AnswerDecides(cockpit.log, start, cloud.now);
          return if ok then None else Some(BuildFailed);
        case None =>
          AnswerGrows(log0, cockpit.log, start, now0, cloud.now);
          PrefixUndecided(Answer(log0, start, now0), lines);
          polled := true;
      }
    }
  }

  /** How far the boot got: the build is waited for once power-on was accepted, and only then. */
  ghost function BootedSoFar(failure: Option<BuildError>): Phase {
    if failure.Some? && failure.value.CloudInitFailed? then Created
    else if failure.Some? && failure.value.PowerOnFailed? then Configured
    else Booted
  }

  /** The steps between creating the server and tearing it down; waited is when the wait began, if it did. */
  method ConfigureBootAndWait(cloud: Cloud, cockpit: Cockpit, maxWaitSeconds: int)
    returns (failure: Option<BuildError>, ghost waited: int)
    requires InOrder(cockpit.log) && cloud.phase == Created
    modifies cloud, cockpit
    ensures cloud.Declines() && old(cockpit.log) <= cockpit.log
    ensures old(cloud.now) <= waited <= cloud.now
    ensures failure.None? ==> Decision(cockpit.log, waited - 60_000) == Some(true)
    ensures failure == Some(BuildFailed) ==> Decision(cockpit.log, waited - 60_000) == Some(false)
    ensures failure.Some? ==> !BeforeServer(failure.value)
    ensures cloud.early == old(cloud.early) && IsAlive(cloud.phase)
    ensures cloud.phase == BootedSoFar(failure)
    ensures cloud.calls <= old(cloud.calls) + 2
  {
    var init := cloud.SetCloudInit();
    if init.Some? {
      return Some(CloudInitFailed(init.value)), cloud.now;
    }
    var power := cloud.PowerOnServer();
    if power.Some? {
      return Some(PowerOnFailed(power.value)), cloud.now;
    }
    waited := cloud.now;
    failure := WaitForInstanceBuild(cloud, cockpit, maxWaitSeconds);
  }

  /**
   * Whatever fails on the way, a server whose creation was acknowledged is torn down, and nothing of it
   * is left without a warning, save what a server that vanished before it was listed had left. A server
   * created by a request whose reply was lost is never torn down.
   */
  method RunInstanceBuild(cloud: Cloud, cockpit: Cockpit, source: string, credentials: bool, maxWaitSeconds: int)
    returns (failure: Option<BuildError>, job: Job?, ghost waited: int)
    requires cloud.server == Absent && cloud.leftovers == {} && cloud.phase == Fresh && InOrder(cockpit.log)
    modifies cloud, cockpit
    ensures old(cloud.now) <= waited <= cloud.now
    ensures failure.None? ==> Decision(cockpit.log, waited - 60_000) == Some(true)
    ensures failure == Some(BuildFailed) ==> Decision(cockpit.log, waited - 60_000) == Some(false)
    ensures failure == Some(InvalidSource) <==> ParseS3Source(source).None?
    ensures failure == Some(MissingCredentials) <==> ParseS3Source(source).Some? && !credentials
    ensures job == null <==> failure.Some? && BeforeServer(failure.value)
    ensures job == null && !failure.value.CreateFailed? ==>
      cloud.server == Absent && cloud.leftovers == {} && cloud.calls == old(cloud.calls)
    ensures job == null && cloud.server == Absent ==> cloud.leftovers == {}
    ensures job == null ==> cloud.phase == Fresh
    ensures job != null ==> cloud.phase != Broken && (!job.gone ==> IsEnding(cloud.phase))
    ensures job != null ==> cloud.early == old(cloud.early) || exists e :: NotRemoved(e) in job.log
    ensures job != null ==> fresh(job) && job.cloud == cloud
    ensures job != null ==> (job.NoSilentLeak() <==> !job.gone || cloud.leftovers == {})
    ensures job != null ==> cloud.refused >= old(cloud.refused) + 3 * |job.log|
    ensures job != null ==> cloud.calls <= old(cloud.calls) + 3 + 3 * (1 + 2 + MaxDeletes(job.res))
  {
    job := null;
    if ParseS3Source(source).None? {
      return Some(InvalidSource), null, cloud.now;
    }
    if !credentials {
      return Some(MissingCredentials), null, cloud.now;
    }
    var created := cloud.CreateServer();
    if created.Some? {
      return Some(CreateFailed(created.value)), null, cloud.now;
    }
    failure, job, waited := BuildOnServer(cloud, cockpit, maxWaitSeconds);
  }

  /** From the acknowledged creation on: the teardown is deferred, so it follows whatever happens here. */
  method BuildOnServer(cloud: Cloud, cockpit: Cockpit, maxWaitSeconds: int)
    returns (failure: Option<BuildError>, job: Job, ghost waited: int)
    requires cloud.phase == Created && InOrder(cockpit.log)
    modifies cloud, cockpit
    ensures old(cloud.now) <= waited <= cloud.now
    ensures failure.None? ==> Decision(cockpit.log, waited - 60_000) == Some(true)
    ensures failure == Some(BuildFailed) ==> Decision(cockpit.log, waited - 60_000) == Some(false)
    ensures failure.Some? ==> !BeforeServer(failure.value)
    ensures cloud.phase != Broken && (!job.gone ==> IsEnding(cloud.phase))
    ensures cloud.early == old(cloud.early) || exists e :: NotRemoved(e) in job.log
    ensures fresh(job) && job.cloud == cloud
    ensures job.NoSilentLeak() <==> !job.gone || cloud.leftovers == {}
    ensures cloud.refused >= old(cloud.refused) + 3 * |job.log|
    ensures cloud.calls <= old(cloud.calls) + 2 + 3 * (1 + 2 + MaxDeletes(job.res))
  {
    failure, waited := ConfigureBootAndWait(cloud, cockpit, maxWaitSeconds);
    job := new Job(cloud);
    job.TeardownServer();
  }
}

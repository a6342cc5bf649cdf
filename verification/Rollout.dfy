/** Progressive rollout of plugin updates: the stage walk over time, and the update directive seen as one round of a
    client that installs what it is told. */
module Rollout {
  import opened Common
  import opened Ordering

  // ---- Stages ----

  /** A stage of a rollout; an absent duration counts as 0 hours, an absent percent as 100. */
  datatype Stage = Stage(durationHours: Option<real>, percent: Option<int>)

  function Hours(s: Stage): real {
    if s.durationHours.Some? then s.durationHours.value else 0.0
  }

  function Percent(s: Stage): int {
    if s.percent.Some? then s.percent.value else 100
  }

  /** The percent in force at a given age, the first stages having taken `before` hours. */
  function PercentFrom(stages: seq<Stage>, elapsed: real, before: real): int {
    if stages == [] then 100
    else
      var until := before + Hours(stages[0]);
      if elapsed < until || Percent(stages[0]) == 100 then Percent(stages[0])
      else PercentFrom(stages[1..], elapsed, until)
  }

  function TotalHours(stages: seq<Stage>): real {
    if stages == [] then 0.0
    else (if stages[0].durationHours.Some? then stages[0].durationHours.value else 0.0) + TotalHours(stages[1..])
  }

  /** Stage i is not over at that age, or is for everybody. */
  predicate Holds(stages: seq<Stage>, elapsed: real, i: nat)
    requires i < |stages|
  {
    elapsed < TotalHours(stages[..i + 1]) || stages[i].percent == None || stages[i].percent == Some(100)
  }

  /** The first such stage is the running one. */
  ghost predicate IsRunning(stages: seq<Stage>, elapsed: real, i: nat) {
    i < |stages| && Holds(stages, elapsed, i) && forall j :: 0 <= j < i ==> !Holds(stages, elapsed, j)
  }

  lemma {:induction false} HoursBefore(stages: seq<Stage>, i: nat)
    requires i < |stages|
    ensures TotalHours(stages[..i + 1]) == TotalHours(stages[..i]) + Hours(stages[i])
  {
    if i == 0 {
      assert stages[..1][1..] == [] && stages[..0] == [];
    } else {
      HoursBefore(stages[1..], i - 1);
      assert stages[..i + 1][1..] == stages[1..][..i] && stages[..i][1..] == stages[1..][..i - 1];
    }
  }

  /** The percent of the running stage, or 100 when there is none any more. */
  method CurrentPercent(stages: seq<Stage>, elapsed: real) returns (percent: int)
    ensures percent == PercentFrom(stages, elapsed, 0.0)
    ensures forall i: nat :: IsRunning(stages, elapsed, i) ==>
              percent == if stages[i].percent.Some? then stages[i].percent.value else 100
    ensures (forall i: nat :: !IsRunning(stages, elapsed, i)) ==> percent == 100
  {
    var cumulative := 0.0;
    for i := 0 to |stages|
      invariant cumulative == TotalHours(stages[..i])
      invariant PercentFrom(stages, elapsed, 0.0) == PercentFrom(stages[i..], elapsed, cumulative)
      invariant forall j :: 0 <= j < i ==> !Holds(stages, elapsed, j)
    {
      HoursBefore(stages, i);
      cumulative := cumulative + Hours(stages[i]);
      if elapsed < cumulative || Percent(stages[i]) == 100 {
        assert IsRunning(stages, elapsed, i);
        return Percent(stages[i]);
      }
      assert stages[i..][1..] == stages[i + 1..];
    }
    return 100;
  }

  /** Stages that are over do not matter any more. */
  lemma {:induction false} SkipStages(stages: seq<Stage>, elapsed: real, n: nat)
    requires n <= |stages| && forall j :: 0 <= j < n ==> !Holds(stages, elapsed, j)
    ensures PercentFrom(stages, elapsed, 0.0) == PercentFrom(stages[n..], elapsed, TotalHours(stages[..n]))
  {
    if n == 0 {
      assert stages[0..] == stages && stages[..0] == [];
    } else {
      SkipStages(stages, elapsed, n - 1);
      assert !Holds(stages, elapsed, n - 1);
      HoursBefore(stages, n - 1);
      assert stages[n - 1..][1..] == stages[n..] && stages[..n - 1 + 1] == stages[..n];
    }
  }

  /** At every age the percent in force is that of the running stage. */
  lemma PercentIsOfTheRunningStage(stages: seq<Stage>, elapsed: real, i: nat)
    requires IsRunning(stages, elapsed, i)
    ensures PercentFrom(stages, elapsed, 0.0) == if stages[i].percent.Some? then stages[i].percent.value else 100
  {
    SkipStages(stages, elapsed, i);
    HoursBefore(stages, i);
  }

  /** A rollout that only widens. */
  ghost predicate Widening(stages: seq<Stage>) {
    && (forall i :: 0 <= i < |stages| ==> Hours(stages[i]) >= 0.0 && Percent(stages[i]) <= 100)
    && (forall i, j :: 0 <= i <= j < |stages| ==> Percent(stages[i]) <= Percent(stages[j]))
  }

  lemma {:induction false} AtLeastTheFirst(stages: seq<Stage>, elapsed: real, before: real, floor: int)
    requires Widening(stages) && floor <= 100 && (stages != [] ==> floor <= Percent(stages[0]))
    ensures floor <= PercentFrom(stages, elapsed, before) <= 100
  {
    if stages != [] {
      assert stages[1..] != [] ==> stages[1..][0] == stages[1];
      AtLeastTheFirst(stages[1..], elapsed, before + Hours(stages[0]), floor);
    }
  }

  /** The percent in force never shrinks as time passes. */
  lemma {:induction false} PercentIsMonotone(stages: seq<Stage>, early: real, late: real, before: real)
    requires Widening(stages) && early <= late
    ensures PercentFrom(stages, early, before) <= PercentFrom(stages, late, before)
  {
    if stages != [] {
      var until := before + Hours(stages[0]);
      assert stages[1..] != [] ==> stages[1..][0] == stages[1];
      PercentIsMonotone(stages[1..], early, late, until);
      AtLeastTheFirst(stages[1..], late, until, Percent(stages[0]));
    }
  }

  lemma {:induction false} TotalIsNonNegative(stages: seq<Stage>)
    requires Widening(stages)
    ensures TotalHours(stages) >= 0.0
  {
    if stages != [] {
      TotalIsNonNegative(stages[1..]);
    }
  }

  /** Once all stages are over, everybody is in. */
  lemma {:induction false} EndsAtHundred(stages: seq<Stage>, elapsed: real, before: real)
    requires Widening(stages) && elapsed >= before + TotalHours(stages)
    ensures PercentFrom(stages, elapsed, before) == 100
  {
    if stages != [] {
      TotalIsNonNegative(stages[1..]);
      EndsAtHundred(stages[1..], elapsed, before + Hours(stages[0]));
    }
  }

  // ---- Versions ----

  /** The segments as integers, up to the first that is not one; parseInt is Python's int(). */
  function ParseAll(parts: seq<string>, parseInt: string -> Option<int>): Option<seq<int>> {
    if parts == [] then Some([])
    else match (parseInt(parts[0]), ParseAll(parts[1..], parseInt))
      case (Some(n), Some(rest)) => Some([n] + rest)
      case _ => None
  }

  function ParseVersion(v: string, parseInt: string -> Option<int>): seq<int> {
    match ParseAll(Split(v, '.'), parseInt)
    case Some(tuple) => tuple
    case None => [0]
  }

  /** Integers separated by dots are read as they stand. */
  lemma {:induction false} ParseAllNumbers(parts: seq<string>, numbers: seq<int>, parseInt: string -> Option<int>)
    requires |parts| == |numbers| && forall i :: 0 <= i < |parts| ==> parseInt(parts[i]) == Some(numbers[i])
    ensures ParseAll(parts, parseInt) == Some(numbers)
  {
    if parts != [] {
      ParseAllNumbers(parts[1..], numbers[1..], parseInt);
      assert numbers == [numbers[0]] + numbers[1..];
    }
  }

  lemma {:induction false} ParseAllFails(parts: seq<string>, parseInt: string -> Option<int>, i: nat)
    requires i < |parts| && parseInt(parts[i]).None?
    ensures ParseAll(parts, parseInt).None?
  {
    if i > 0 {
      ParseAllFails(parts[1..], parseInt, i - 1);
    }
  }

  /** A dotted version is the tuple of its numbers; one segment that is not a number makes it a single zero. */
  lemma VersionIsItsNumbers(parts: seq<string>, numbers: seq<int>, parseInt: string -> Option<int>)
    requires parts != [] && (forall i :: 0 <= i < |parts| ==> '.' !in parts[i]) && |numbers| == |parts|
    requires forall i :: 0 <= i < |parts| ==> parseInt(parts[i]) == Some(numbers[i])
    ensures ParseVersion(Join(parts, '.'), parseInt) == numbers
  {
    SplitJoined(parts, '.');
    ParseAllNumbers(parts, numbers, parseInt);
  }

  lemma UnreadableVersionIsZero(parts: seq<string>, parseInt: string -> Option<int>, i: nat)
    requires parts != [] && (forall j :: 0 <= j < |parts| ==> '.' !in parts[j])
    requires i < |parts| && parseInt(parts[i]).None?
    ensures ParseVersion(Join(parts, '.'), parseInt) == [0]
  {
    SplitJoined(parts, '.');
    ParseAllFails(parts, parseInt, i);
  }

  // ---- The update directive ----

  datatype Artifact = Artifact(version: string, path: string, checksum: string)

  /** start is None when the creation time is absent or unreadable; no stages means no gating. */
  datatype Campaign = Campaign(id: int, urgency: string, deadline: Option<string>, changelog: Option<string>,
                               artifact: Artifact, rollback: Artifact, start: Option<real>, stages: seq<Stage>)

  datatype Action = Update | Rollback

  datatype Directive = Directive(action: Action, current: string, target: string, url: string, checksum: string,
                                 urgency: string, changelog: Option<string>, deadline: Option<string>, campaign: int)

  /** uuid may be empty; percentile stands for the first digits of its hash, modulo 100. */
  datatype Device = Device(uuid: string, percentile: int, name: string)

  function RolloutPercent(c: Campaign, now: real): int {
    if c.start.None? then 100 else PercentFrom(c.stages, (now - c.start.value) / 3600.0, 0.0)
  }

  predicate Eligible(c: Campaign, d: Device, now: real) {
    || d.uuid == "" || c.stages == []
    || RolloutPercent(c, now) >= 100
    || d.percentile < RolloutPercent(c, now)
  }

  function StripSlashes(path: string): string {
    if path != "" && path[0] == '/' then StripSlashes(path[1..]) else path
  }

  function ArtifactUrl(d: Device, path: string): string {
    if d.name != "" then "/catalog/" + d.name + "/download" else "/binaries/" + StripSlashes(path)
  }

  predicate HasRollback(c: Campaign) {
    c.rollback.path != "" && c.rollback.version != ""
  }

  predicate Unversioned(v: string) {
    v == "" || v == "unknown" || v == "0"
  }

  function Order(c: Campaign, d: Device, action: Action, current: string, a: Artifact): Directive {
    Directive(action, current, a.version, ArtifactUrl(d, a.path), a.checksum, c.urgency, c.changelog, c.deadline, c.id)
  }

  function BuildDirective(v: string, campaign: Option<Campaign>, d: Device, now: real,
                          parseInt: string -> Option<int>): Option<Directive> {
    if Unversioned(v) || campaign.None? then None
    else
      var c := campaign.value;
      if c.artifact.version == "" || v == c.artifact.version then None
      else if !Eligible(c, d, now) then None
      else if Less(ParseVersion(v, parseInt), ParseVersion(c.artifact.version, parseInt)) then
        Some(Order(c, d, Update, v, c.artifact))
      else if HasRollback(c) then Some(Order(c, d, Rollback, v, c.rollback))
      else None
  }

  /** The device's percentile is below the percent of the running stage. */
  ghost predicate BelowRunning(c: Campaign, d: Device, elapsed: real) {
    exists i: nat :: IsRunning(c.stages, elapsed, i) &&
      d.percentile < if c.stages[i].percent.Some? then c.stages[i].percent.value else 100
  }

  lemma RunningIsUnique(stages: seq<Stage>, elapsed: real, i: nat, j: nat)
    requires IsRunning(stages, elapsed, i) && IsRunning(stages, elapsed, j)
    ensures i == j
  {
  }

  lemma NoneRunning(stages: seq<Stage>, elapsed: real)
    requires forall i: nat :: !IsRunning(stages, elapsed, i)
    ensures PercentFrom(stages, elapsed, 0.0) == 100
  {
    NoneHolds(stages, elapsed, |stages|);
    SkipStages(stages, elapsed, |stages|);
  }

  lemma {:induction false} NoneHolds(stages: seq<Stage>, elapsed: real, n: nat)
    requires n <= |stages| && forall i: nat :: !IsRunning(stages, elapsed, i)
    ensures forall j :: 0 <= j < n ==> !Holds(stages, elapsed, j)
  {
    if n > 0 {
      NoneHolds(stages, elapsed, n - 1);
      assert !IsRunning(stages, elapsed, n - 1);
    }
  }

  /** A device is let in exactly when it has no id, or the campaign no stages or no start, or no stage is running any
      more, or its percentile is below the percent of the one that is. */
  lemma EligibleIff(c: Campaign, d: Device, now: real)
    requires 0 <= d.percentile < 100
    ensures Eligible(c, d, now) <==>
            || d.uuid == "" || c.stages == [] || c.start.None?
            || var elapsed := (now - c.start.value) / 3600.0;
               (forall i: nat :: !IsRunning(c.stages, elapsed, i)) || BelowRunning(c, d, elapsed)
  {
    if c.start.Some? {
      var elapsed := (now - c.start.value) / 3600.0;
      if i: nat :| IsRunning(c.stages, elapsed, i) {
        PercentIsOfTheRunningStage(c.stages, elapsed, i);
        forall j: nat | IsRunning(c.stages, elapsed, j) ensures j == i {
          RunningIsUnique(c.stages, elapsed, i, j);
        }
      } else {
        NoneRunning(c.stages, elapsed);
      }
    }
  }

  lemma {:induction false} StripSlashesTrims(path: string) returns (slashes: string)
    ensures (forall ch :: ch in slashes ==> ch == '/') && path == slashes + StripSlashes(path)
    ensures StripSlashes(path) == "" || StripSlashes(path)[0] != '/'
  {
    slashes := "";
    if path != "" && path[0] == '/' {
      slashes := StripSlashesTrims(path[1..]);
      slashes := "/" + slashes;
      assert path == "/" + path[1..];
    }
  }

  /** Where a client finds the artifact at path: under its catalogue name if it has one, else the path itself, without
      its leading slashes. */
  ghost predicate Locates(d: Device, path: string, url: string) {
    if d.name != "" then url == "/catalog/" + d.name + "/download"
    else exists slashes, rest ::
      && path == slashes + rest && url == "/binaries/" + rest
      && (forall ch :: ch in slashes ==> ch == '/') && (rest == "" || rest[0] != '/')
  }

  lemma UrlLocates(d: Device, path: string)
    ensures Locates(d, path, ArtifactUrl(d, path))
  {
    if d.name == "" {
      var slashes := StripSlashesTrims(path);
    }
  }

  /** An artifact the directive sends to: all that it names is of that artifact. */
  ghost predicate SendsTo(order: Directive, d: Device, a: Artifact) {
    order.target == a.version && order.checksum == a.checksum && Locates(d, a.path, order.url)
  }

  /** A client with a version gets a directive if and only if it is eligible, does not have the campaign's artifact, and
      is behind it, which means an update to it, or the campaign has a rollback, which means a rollback to that. */
  lemma DirectiveIffDue(v: string, c: Campaign, d: Device, now: real, parseInt: string -> Option<int>)
    ensures var order := BuildDirective(v, Some(c), d, now, parseInt);
            var behind := Less(ParseVersion(v, parseInt), ParseVersion(c.artifact.version, parseInt));
            && (order.Some? <==>
                  && v !in ["", "unknown", "0"] && c.artifact.version != "" && v != c.artifact.version
                  && Eligible(c, d, now) && (behind || (c.rollback.path != "" && c.rollback.version != "")))
            && (order.Some? ==>
                  && order.value.current == v && order.value.campaign == c.id && order.value.urgency == c.urgency
                  && order.value.changelog == c.changelog && order.value.deadline == c.deadline
                  && order.value.action == (if behind then Update else Rollback)
                  && SendsTo(order.value, d, if behind then c.artifact else c.rollback))
  {
    UrlLocates(d, c.artifact.path);
    UrlLocates(d, c.rollback.path);
  }

  lemma StaysEligible(c: Campaign, d: Device, early: real, late: real)
    requires Widening(c.stages) && early <= late && Eligible(c, d, early)
    ensures Eligible(c, d, late)
  {
    if c.start.Some? {
      PercentIsMonotone(c.stages, (early - c.start.value) / 3600.0, (late - c.start.value) / 3600.0, 0.0);
    }
  }

  /** Eligible devices stay eligible, so a device that once gets a directive gets the same one at every later time. */
  lemma DirectivesPersist(v: string, c: Campaign, d: Device, early: real, late: real, parseInt: string -> Option<int>)
    requires Widening(c.stages) && early <= late
    ensures Eligible(c, d, early) ==> Eligible(c, d, late)
    ensures var first := BuildDirective(v, Some(c), d, early, parseInt);
            first.Some? ==> BuildDirective(v, Some(c), d, late, parseInt) == first
  {
    if Eligible(c, d, early) {
      StaysEligible(c, d, early, late);
    }
  }

  /** When the stages are over, every device is eligible. */
  lemma EverybodyEventually(c: Campaign, d: Device, now: real)
    requires Widening(c.stages)
    requires c.start.Some? ==> (now - c.start.value) / 3600.0 >= TotalHours(c.stages)
    ensures Eligible(c, d, now)
  {
    if c.start.Some? {
      EndsAtHundred(c.stages, (now - c.start.value) / 3600.0, 0.0);
    }
  }

  // ---- A client that installs what it is told ----

  /** A device that polls under a fixed campaign; parseInt is Python's int(). */
  datatype Subscriber = Subscriber(campaign: Campaign, device: Device, parseInt: string -> Option<int>)

  function Told(u: Subscriber, v: string, now: real): Option<Directive> {
    BuildDirective(v, Some(u.campaign), u.device, now, u.parseInt)
  }

  /** The version after a poll: a directive is installed. */
  function Poll(u: Subscriber, v: string, now: real): string {
    match Told(u, v, now)
    case Some(order) => order.target
    case None => v
  }

  /** The version after the first n polls, the i-th being made at times(i). */
  function AfterPolls(u: Subscriber, v: string, times: nat -> real, n: nat): string {
    if n == 0 then v else Poll(u, AfterPolls(u, v, times, n - 1), times(n - 1))
  }

  /** How many of the first n polls brought a directive. */
  function Installs(u: Subscriber, v: string, times: nat -> real, n: nat): nat {
    if n == 0 then 0
    else Installs(u, v, times, n - 1) + if Told(u, AfterPolls(u, v, times, n - 1), times(n - 1)).Some? then 1 else 0
  }

  ghost predicate Nondecreasing(times: nat -> real) {
    forall i: nat, j: nat :: i <= j ==> times(i) <= times(j)
  }

  /** What an operator can check of a campaign before starting it. */
  predicate Terminating(c: Campaign, parseInt: string -> Option<int>) {
    || c.artifact.version == "" || !HasRollback(c)
    || c.rollback.version == c.artifact.version || Unversioned(c.rollback.version)
    || Less(ParseVersion(c.rollback.version, parseInt), ParseVersion(c.artifact.version, parseInt))
  }

  predicate IsBehind(u: Subscriber, v: string) {
    Less(ParseVersion(v, u.parseInt), ParseVersion(u.campaign.artifact.version, u.parseInt))
  }

  /** Versions that never bring a directive, at no time. */
  predicate LeftAlone(u: Subscriber, v: string) {
    || Unversioned(v) || u.campaign.artifact.version == "" || v == u.campaign.artifact.version
    || (!IsBehind(u, v) && !HasRollback(u.campaign))
  }

  /** How many installs a version is away from being left alone. */
  function Distance(u: Subscriber, v: string): (n: nat)
    ensures n <= if HasRollback(u.campaign) then 2 else 1
  {
    if LeftAlone(u, v) then 0 else if IsBehind(u, v) then 1 else 2
  }

  /** Every install brings the version closer; an eligible device installs until it is left alone, and nothing after. */
  lemma PollComesCloser(u: Subscriber, v: string, now: real)
    requires Terminating(u.campaign, u.parseInt)
    ensures Told(u, v, now).Some? <==> Eligible(u.campaign, u.device, now) && Distance(u, v) > 0
    ensures Distance(u, Poll(u, v, now)) + (if Told(u, v, now).Some? then 1 else 0) <= Distance(u, v)
  {
  }

  /** Whenever the client polls, it installs at most twice, and at most once when there is no rollback. */
  lemma {:induction false} InstallsAreFew(u: Subscriber, v: string, times: nat -> real, n: nat)
    requires Terminating(u.campaign, u.parseInt)
    ensures Installs(u, v, times, n) + Distance(u, AfterPolls(u, v, times, n)) <= Distance(u, v)
    ensures Installs(u, v, times, n) <= if HasRollback(u.campaign) then 2 else 1
  {
    if n > 0 {
      InstallsAreFew(u, v, times, n - 1);
      PollComesCloser(u, AfterPolls(u, v, times, n - 1), times(n - 1));
    }
  }

  lemma NextPollComesCloser(u: Subscriber, v: string, times: nat -> real, n: nat)
    requires Terminating(u.campaign, u.parseInt) && Eligible(u.campaign, u.device, times(n))
    ensures Distance(u, AfterPolls(u, v, times, n + 1)) <= Max(0, Distance(u, AfterPolls(u, v, times, n)) - 1)
  {
    PollComesCloser(u, AfterPolls(u, v, times, n), times(n));
  }

  ghost predicate EligibleFrom(u: Subscriber, times: nat -> real, k: nat) {
    forall m: nat :: m >= k ==> Eligible(u.campaign, u.device, times(m))
  }

  lemma {:induction false} NeverFurther(u: Subscriber, v: string, times: nat -> real, m: nat, n: nat)
    requires Terminating(u.campaign, u.parseInt) && m <= n
    ensures Distance(u, AfterPolls(u, v, times, n)) <= Distance(u, AfterPolls(u, v, times, m))
  {
    if m < n {
      NeverFurther(u, v, times, m, n - 1);
      PollComesCloser(u, AfterPolls(u, v, times, n - 1), times(n - 1));
    }
  }

  lemma SoonLeftAlone(u: Subscriber, v: string, times: nat -> real, k: nat)
    requires Terminating(u.campaign, u.parseInt) && EligibleFrom(u, times, k)
    ensures Distance(u, AfterPolls(u, v, times, k + if HasRollback(u.campaign) then 2 else 1)) == 0
  {
    NextPollComesCloser(u, v, times, k);
    if HasRollback(u.campaign) {
      NextPollComesCloser(u, v, times, k + 1);
    }
  }

  lemma EligibleForGood(u: Subscriber, times: nat -> real, k: nat)
    requires Widening(u.campaign.stages) && Nondecreasing(times) && Eligible(u.campaign, u.device, times(k))
    ensures EligibleFrom(u, times, k)
  {
    forall m: nat | m >= k ensures Eligible(u.campaign, u.device, times(m)) {
      StaysEligible(u.campaign, u.device, times(k), times(m));
    }
  }

  /** Once the device is eligible, two more polls (one without rollback) lead, from any version string, to a version
      that brings no directive at any time. */
  lemma TwoPollsSuffice(u: Subscriber, v: string, times: nat -> real, k: nat, n: nat, now: real)
    requires Terminating(u.campaign, u.parseInt) && Widening(u.campaign.stages) && Nondecreasing(times)
    requires Eligible(u.campaign, u.device, times(k)) && n >= k + if HasRollback(u.campaign) then 2 else 1
    ensures Told(u, AfterPolls(u, v, times, n), now).None?
  {
    EligibleForGood(u, times, k);
    SoonLeftAlone(u, v, times, k);
    NeverFurther(u, v, times, k + if HasRollback(u.campaign) then 2 else 1, n);
    PollComesCloser(u, AfterPolls(u, v, times, n), now);
  }

  /** Otherwise a client at the rollback version stays there, told to roll back to it at every poll once eligible. */
  lemma {:induction false} RollbackLoops(u: Subscriber, times: nat -> real, n: nat)
    requires !Terminating(u.campaign, u.parseInt)
    ensures var v := u.campaign.rollback.version;
            && AfterPolls(u, v, times, n) == v
            && (Eligible(u.campaign, u.device, times(n)) ==> Told(u, v, times(n)).Some?)
  {
    if n > 0 {
      RollbackLoops(u, times, n - 1);
    }
  }

  predicate Quiet(u: Subscriber, v: string, times: nat -> real, n: nat) {
    Told(u, AfterPolls(u, v, times, n), times(n)).None?
  }

  ghost predicate QuietFrom(u: Subscriber, v: string, times: nat -> real, n: nat) {
    forall m: nat :: m >= n ==> Quiet(u, v, times, m)
  }

  /** From some poll on there is no directive any more. */
  ghost predicate Settles(u: Subscriber, v: string, times: nat -> real) {
    exists n: nat :: QuietFrom(u, v, times, n)
  }

  /** A device that becomes eligible at some poll settles, from every starting version, if and only if the campaign's
      rollback is absent, is the artifact itself, carries no version, or is strictly older than the artifact. */
  lemma SettlesIffTerminating(u: Subscriber, times: nat -> real, k: nat)
    requires Widening(u.campaign.stages) && Nondecreasing(times) && Eligible(u.campaign, u.device, times(k))
    ensures (forall v :: Settles(u, v, times)) <==> Terminating(u.campaign, u.parseInt)
  {
    if Terminating(u.campaign, u.parseInt) {
      forall v ensures Settles(u, v, times) {
        forall m: nat | m >= k + 2 ensures Quiet(u, v, times, m) {
          TwoPollsSuffice(u, v, times, k, m, times(m));
        }
        assert QuietFrom(u, v, times, k + 2);
      }
    } else {
      var v := u.campaign.rollback.version;
      forall n: nat ensures !QuietFrom(u, v, times, n) {
        var m := Max(k, n);
        RollbackLoops(u, times, m);
        EligibleForGood(u, times, k);
        assert !Quiet(u, v, times, m);
      }
      assert !Settles(u, v, times);
    }
  }
}

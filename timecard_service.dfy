/**
 * The timecard service the view talks to (NrTimecardService). Its storage
 * and query engine belong to another library, so it is modelled only through
 * the interface the view uses: projects and records kept by id, the `NOW`
 * sentinel, and a ghost log of every call made to it. The method bodies are a
 * small in-memory reference implementation; the controller and the template
 * rely on the contracts alone.
 */
module TimecardService {
  import opened Wrappers
  import opened JsValues

  /** A start or end time handed to the service: the `NOW` sentinel or a value (undefined: not given). */
  datatype TimeArg = Now | At(v: Value)

  /** A stored project (`title` is the `label` column). */
  datatype ProjectRow = ProjectRow(id: Value, userId: Value, clientId: Value, title: Value, lunchMinutes: Value)

  /** A stored record; a deleted record is kept and flagged. */
  datatype RecordRow = RecordRow(
    id: Value,
    userId: Value,
    projectId: Value,
    startTime: Value,
    endTime: Value,
    description: Value,
    lunchMinutes: Value,
    deleted: bool)

  /** The fields `updateProject` overwrites. */
  datatype ProjectPatch = ProjectPatch(title: Value, clientId: Value, lunchMinutes: Value)

  /** The fields `updateRecord` overwrites: None leaves a field as it is. */
  datatype RecordPatch = RecordPatch(
    startTime: Option<TimeArg>,
    endTime: Option<TimeArg>,
    description: Option<Value>,
    lunchMinutes: Option<Value>,
    deleted: Option<bool>)

  /** One call made to the service, with its arguments. */
  datatype Call =
    | CreateProjectCall(userId: Value, title: Value, clientId: Value, lunchMinutes: Value)
    | UpdateProjectCall(projectId: Value, projectPatch: ProjectPatch)
    | FetchProjectCall(projectId: Value)
    | LatestProjectCall(userId: Value)
    | SearchProjectsCall(userId: Value)
    | CreateRecordCall(userId: Value, projectId: Value, startTime: TimeArg, endTime: TimeArg,
                       description: Value, lunchMinutes: Value)
    | UpdateRecordCall(recordId: Value, recordPatch: RecordPatch)
    | SearchRecordsCall(userId: Value, projectId: Value, from: Value, to: Value)
  {
    /** The four calls that change what the service stores. */
    predicate IsMutation() {
      CreateProjectCall? || UpdateProjectCall? || CreateRecordCall? || UpdateRecordCall?
    }
  }

  /** What the service stores, apart from its call log. */
  datatype Store = Store(
    projects: map<string, ProjectRow>,
    records: map<string, RecordRow>,
    latest: map<Value, string>,
    clock: int)

  /** A bound on the length of every string in `s`. */
  ghost function MaxLength(s: set<string>): (n: nat)
    ensures forall x | x in s :: |x| <= n
    decreases s
  {
    if s == {} then 0
    else
      var x :| x in s;
      var m := MaxLength(s - {x});
      if |x| > m then |x| else m
  }

  /** A key that `m` does not hold yet. */
  method FreshKey<V>(m: map<string, V>, prefix: string) returns (k: string)
    ensures k !in m
  {
    k := prefix;
    while k in m
      decreases MaxLength(m.Keys) + 1 - |k|
    {
      k := k + "0";
    }
  }

  /** `16^k`. */
  function Pow16(k: nat): (p: nat)
    ensures p >= 1
  {
    if k == 0 then 1 else 16 * Pow16(k - 1)
  }

  /** How many textual UUIDs the service hands out: one per 32-digit hexadecimal number. */
  const UuidCount: nat := Pow16(32)

  /** The lower-case hexadecimal digit of `d`. */
  function HexDigit(d: nat): (c: char)
    requires d < 16
    ensures IsHexDigit(c)
  {
    if d < 10 then ('0' as int + d) as char else ('a' as int + d - 10) as char
  }

  /** The last `width` hexadecimal digits of `n`, most significant first. */
  function Hex(n: nat, width: nat): (s: string)
    ensures |s| == width && forall i | 0 <= i < width :: IsHexDigit(s[i])
  {
    if width == 0 then [] else Hex(n / 16, width - 1) + [HexDigit(n % 16)]
  }

  /** Below `16^width`, different numbers have different digits. */
  lemma {:induction false} HexInjective(m: nat, n: nat, width: nat)
    requires m < Pow16(width) && n < Pow16(width) && Hex(m, width) == Hex(n, width)
    ensures m == n
  {
    if width > 0 {
      assert Hex(m, width)[width - 1] == HexDigit(m % 16) && Hex(n, width)[width - 1] == HexDigit(n % 16);
      assert Hex(m / 16, width - 1) == Hex(m, width)[..width - 1] && Hex(n / 16, width - 1) == Hex(n, width)[..width - 1];
      HexInjective(m / 16, n / 16, width - 1);
    }
  }

  /** The position of digit `i` of a UUID in its textual form, past the hyphens before it. */
  function DigitPosition(i: nat): nat {
    if i < 8 then i else if i < 12 then i + 1 else if i < 16 then i + 2 else if i < 20 then i + 3 else i + 4
  }

  /** 32 digits grouped 8-4-4-4-12 with hyphens. */
  function Grouped(h: string): (s: string)
    requires |h| == 32
    ensures |s| == 36
    ensures forall i | 0 <= i < 32 :: s[DigitPosition(i)] == h[i]
    ensures forall j | 0 <= j < 36 && IsUuidHyphen(j) :: s[j] == '-'
  {
    h[..8] + "-" + h[8..12] + "-" + h[12..16] + "-" + h[16..20] + "-" + h[20..]
  }

  /** The `n`-th textual UUID. */
  function UuidText(n: nat): string {
    Grouped(Hex(n, 32))
  }

  /** Every `UuidText` is in the textual form of a UUID. */
  lemma {:induction false} UuidTextIsUuid(n: nat)
    ensures IsUuidString(UuidText(n))
  {
    var h := Hex(n, 32);
    forall j | 0 <= j < 36 && !IsUuidHyphen(j)
      ensures IsHexDigit(UuidText(n)[j])
    {
      var i := if j < 8 then j else if j < 13 then j - 1 else if j < 18 then j - 2 else if j < 23 then j - 3 else j - 4;
      assert DigitPosition(i) == j;
    }
  }

  /** Different numbers below `UuidCount` give different UUIDs. */
  lemma {:induction false} UuidTextInjective(m: nat, n: nat)
    requires m < UuidCount && n < UuidCount && UuidText(m) == UuidText(n)
    ensures m == n
  {
    var g, h := Hex(m, 32), Hex(n, 32);
    forall i | 0 <= i < 32
      ensures g[i] == h[i]
    {
      assert Grouped(g)[DigitPosition(i)] == Grouped(h)[DigitPosition(i)];
    }
    assert g == h;
    HexInjective(m, n, 32);
  }

  /** A subset is no larger than its superset. */
  lemma {:induction false} SubsetSize<T>(a: set<T>, b: set<T>)
    requires a <= b
    ensures |a| <= |b|
    decreases a
  {
    if a != {} {
      var x :| x in a;
      SubsetSize(a - {x}, b - {x});
    }
  }

  /**
   * A key that `m` does not hold yet: the first UUID it does not hold, which
   * exists as long as fewer than `UuidCount` keys are in use.
   */
  method FreshUuid<V>(m: map<string, V>) returns (k: string)
    ensures k !in m
    ensures |m| < UuidCount ==> IsUuidString(k)
  {
    var n := 0;
    ghost var tried: set<string> := {};
    while n < UuidCount && UuidText(n) in m
      invariant n <= UuidCount
      invariant tried <= m.Keys && |tried| == n
      invariant forall x | x in tried :: exists i | 0 <= i < n :: x == UuidText(i)
      decreases UuidCount - n
    {
      if UuidText(n) in tried {
        var i :| 0 <= i < n && UuidText(n) == UuidText(i);
        UuidTextInjective(i, n);
        assert false;
      }
      tried := tried + {UuidText(n)};
      n := n + 1;
    }
    if n < UuidCount {
      k := UuidText(n);
      UuidTextIsUuid(n);
    } else {
      SubsetSize(tried, m.Keys);
      k := FreshKey(m, "");
    }
  }

  /** Whether a record row answers a search for `userId`'s records of `projectId` between two instants. */
  predicate Matches(row: RecordRow, userId: Value, projectId: Value, from: Value, to: Value) {
    && row.userId == userId
    && row.projectId == projectId
    && !row.deleted
    && row.startTime.DateString? && from.DateString? && to.DateString?
    && from.t <= row.startTime.t <= to.t
  }

  /** The keys of `userId`'s stored projects. */
  function UserProjectKeys(projects: map<string, ProjectRow>, userId: Value): (keys: set<string>)
    ensures forall k :: k in keys <==> k in projects && projects[k].userId == userId
  {
    set k | k in projects && projects[k].userId == userId
  }

  /** The keys of the stored records a search for `userId`'s records of `projectId` between two instants answers. */
  function MatchingRecordKeys(records: map<string, RecordRow>, userId: Value, projectId: Value, from: Value, to: Value)
    : (keys: set<string>)
    ensures forall k :: k in keys <==> k in records && Matches(records[k], userId, projectId, from, to)
  {
    set k | k in records && Matches(records[k], userId, projectId, from, to)
  }

  /** `keys` lists every key of `wanted`, each exactly once. */
  predicate Enumerates(keys: seq<string>, wanted: set<string>) {
    && (forall i, j | 0 <= i < j < |keys| :: keys[i] != keys[j])
    && (forall k | k in keys :: k in wanted)
    && (forall k | k in wanted :: k in keys)
  }

  /** A listing of a set has as many entries as the set has elements. */
  lemma {:induction false} EnumerationSize(keys: seq<string>, wanted: set<string>)
    requires Enumerates(keys, wanted)
    ensures |keys| == |wanted|
    decreases |keys|
  {
    if keys != [] {
      var rest := keys[1..];
      assert forall k :: k in rest <==> k in wanted - {keys[0]} by {
        forall k
          ensures k in rest <==> k in wanted - {keys[0]}
        {
          if k in rest {
            var j :| 0 <= j < |rest| && rest[j] == k;
            assert keys[j + 1] == k && keys[0] != keys[j + 1];
          }
          if k in wanted - {keys[0]} {
            var j :| 0 <= j < |keys| && keys[j] == k;
            assert j != 0;
            assert rest[j - 1] == k;
          }
        }
      }
      assert Enumerates(rest, wanted - {keys[0]}) by {
        forall i, j | 0 <= i < j < |rest|
          ensures rest[i] != rest[j]
        {
          assert keys[i + 1] != keys[j + 1];
        }
      }
      EnumerationSize(rest, wanted - {keys[0]});
    } else {
      assert forall k :: k !in wanted;
      assert wanted == {};
    }
  }

  /** A set with one element holds nothing else. */
  lemma {:induction false} OnlyElement<T>(s: set<T>, x: T)
    requires x in s && |s| == 1
    ensures s == {x}
  {
    assert |s - {x}| == 0;
  }

  /** A set with one element is listed by that element alone. */
  lemma {:induction false} SingleListing(keys: seq<string>, wanted: set<string>, k: string)
    requires Enumerates(keys, wanted) && k in wanted && |wanted| == 1
    ensures keys == [k]
  {
    EnumerationSize(keys, wanted);
    assert k in keys;
  }

  /** The value a time argument is stored as, `NOW` being the service's clock. */
  function Resolve(a: TimeArg, clock: int): Value {
    if a.Now? then DateString(clock) else a.v
  }

  /** The project stored under the id `id`, if any. */
  function Find(projects: map<string, ProjectRow>, id: Value): (r: Option<ProjectRow>)
    ensures r.Some? ==> r.value in projects.Values
  {
    if id.Str? && id.s in projects then Some(projects[id.s]) else None
  }

  /**
   * The project `getUsersLatestProject` answers for `userId`: the one the user
   * last started a record on, while it is stored and still theirs.
   */
  function LatestRow(store: Store, userId: Value): (r: Option<ProjectRow>)
    ensures r.Some? ==> r.value in store.projects.Values && r.value.userId == userId
  {
    if userId in store.latest && store.latest[userId] in store.projects
       && store.projects[store.latest[userId]].userId == userId
    then Some(store.projects[store.latest[userId]])
    else None
  }

  /** A record row after an update with `p`: the fields `p` names are overwritten, the others kept. */
  function Patched(row: RecordRow, p: RecordPatch, clock: int): (r: RecordRow)
    ensures r.id == row.id && r.userId == row.userId && r.projectId == row.projectId
    ensures p.startTime.None? ==> r.startTime == row.startTime
    ensures p.endTime.None? ==> r.endTime == row.endTime
    ensures p.description.None? ==> r.description == row.description
    ensures p.lunchMinutes.None? ==> r.lunchMinutes == row.lunchMinutes
    ensures p.deleted.None? ==> r.deleted == row.deleted
  {
    row.(
      startTime := if p.startTime.Some? then Resolve(p.startTime.value, clock) else row.startTime,
      endTime := if p.endTime.Some? then Resolve(p.endTime.value, clock) else row.endTime,
      description := if p.description.Some? then p.description.value else row.description,
      lunchMinutes := if p.lunchMinutes.Some? then p.lunchMinutes.value else row.lunchMinutes,
      deleted := if p.deleted.Some? then p.deleted.value else row.deleted)
  }

  /** The row `updateRecord` answers `call` with on `before`, None when it has no such record. */
  function UpdatedRow(call: Call, before: Store): (r: Option<RecordRow>)
    requires call.UpdateRecordCall?
    ensures r.Some? <==> call.recordId.Str? && call.recordId.s in before.records
    ensures r.Some? ==> r.value.id == before.records[call.recordId.s].id
                        && r.value.projectId == before.records[call.recordId.s].projectId
  {
    var id := call.recordId;
    if id.Str? && id.s in before.records then Some(Patched(before.records[id.s], call.recordPatch, before.clock)) else None
  }

  /** Whether the service refuses a mutating call on `before`: an update of a row it does not have. */
  predicate Refused(call: Call, before: Store) {
    || (call.UpdateProjectCall? && Find(before.projects, call.projectId).None?)
    || (call.UpdateRecordCall? && UpdatedRow(call, before).None?)
  }

  /** What a mutating call does to the store; a refused call changes nothing. */
  ghost predicate Applied(call: Call, before: Store, after: Store)
    requires call.IsMutation()
  {
    match call
    case CreateProjectCall(userId, title, clientId, lunchMinutes) =>
      exists k :: k !in before.projects && (|before.projects| < UuidCount ==> IsUuidString(k))
        && after == before.(projects := before.projects[k := ProjectRow(Str(k), userId, clientId, title, lunchMinutes)])
    case UpdateProjectCall(id, patch) =>
      var found := Find(before.projects, id);
      after == if found.Some?
        then before.(projects := before.projects[id.s := found.value.(title := patch.title, clientId := patch.clientId,
                                                                        lunchMinutes := patch.lunchMinutes)])
        else before
    case CreateRecordCall(userId, projectId, startTime, endTime, description, lunchMinutes) =>
      exists k :: k !in before.records && (|before.records| < UuidCount ==> IsUuidString(k))
        && after == before.(
             records := before.records[k := RecordRow(Str(k), userId, projectId, Resolve(startTime, before.clock),
                                                      Resolve(endTime, before.clock), description, lunchMinutes, false)],
             latest := if projectId.Str? then before.latest[userId := projectId.s] else before.latest)
    case UpdateRecordCall(id, _) =>
      var row := UpdatedRow(call, before);
      after == if row.Some? then before.(records := before.records[id.s := row.value]) else before
  }

  class Service {
    var projects: map<string, ProjectRow>
    var records: map<string, RecordRow>
    var latest: map<Value, string>   // the project each user last started a record on
    var clock: int                   // the instant `NOW` stands for
    ghost var log: seq<Call>

    constructor (clock: int)
      ensures projects == map[] && records == map[] && latest == map[] && this.clock == clock
      ensures log == []
    {
      projects, records, latest := map[], map[], map[];
      this.clock := clock;
      log := [];
    }

    function State(): Store
      reads this
    {
      Store(projects, records, latest, clock)
    }

    /** The stored project whose id is `id`, if any. */
    function FindProject(id: Value): Option<ProjectRow>
      reads this
    {
      Find(projects, id)
    }

    method CreateProject(userId: Value, title: Value, clientId: Value, lunchMinutes: Value) returns (row: ProjectRow)
      modifies this
      ensures log == old(log) + [CreateProjectCall(userId, title, clientId, lunchMinutes)]
      ensures row.id.Str? && row.id.s !in old(projects) && projects == old(projects)[row.id.s := row]
      ensures |old(projects)| < UuidCount ==> IsUuid(row.id)
      ensures row == ProjectRow(row.id, userId, clientId, title, lunchMinutes)
      ensures records == old(records) && latest == old(latest) && clock == old(clock)
    {
      var key := FreshUuid(projects);
      row := ProjectRow(Str(key), userId, clientId, title, lunchMinutes);
      projects := projects[key := row];
      log := log + [CreateProjectCall(userId, title, clientId, lunchMinutes)];
    }

    method UpdateProject(id: Value, patch: ProjectPatch) returns (r: Outcome<ProjectRow>)
      modifies this
      ensures log == old(log) + [UpdateProjectCall(id, patch)]
      ensures r.Ok? <==> old(FindProject(id)).Some?
      ensures r.Ok? ==> r.value == old(FindProject(id)).value.(title := patch.title, clientId := patch.clientId,
                                                               lunchMinutes := patch.lunchMinutes)
                        && projects == old(projects)[id.s := r.value]
      ensures r.Err? ==> r.error == UnknownRow && projects == old(projects)
      ensures records == old(records) && latest == old(latest) && clock == old(clock)
    {
      log := log + [UpdateProjectCall(id, patch)];
      if id.Str? && id.s in projects {
        var row := projects[id.s].(title := patch.title, clientId := patch.clientId, lunchMinutes := patch.lunchMinutes);
        projects := projects[id.s := row];
        r := Ok(row);
      } else {
        r := Err(UnknownRow);
      }
    }

    method FetchProject(id: Value) returns (r: Option<ProjectRow>)
      modifies this
      ensures log == old(log) + [FetchProjectCall(id)]
      ensures r == FindProject(id)
      ensures State() == old(State())
    {
      log := log + [FetchProjectCall(id)];
      r := FindProject(id);
    }

    method GetUsersLatestProject(userId: Value) returns (r: Option<ProjectRow>)
      modifies this
      ensures log == old(log) + [LatestProjectCall(userId)]
      ensures r == LatestRow(State(), userId)
      ensures State() == old(State())
    {
      log := log + [LatestProjectCall(userId)];
      r := LatestRow(State(), userId);
    }

    /**
     * `searchProjects` for `userId`'s projects: one row per stored project of
     * the user, in no particular order; `keys` says which row is which.
     */
    method SearchProjects(userId: Value) returns (rows: seq<ProjectRow>, ghost keys: seq<string>)
      modifies this
      ensures log == old(log) + [SearchProjectsCall(userId)]
      ensures Enumerates(keys, UserProjectKeys(projects, userId))
      ensures |rows| == |keys| && forall i | 0 <= i < |keys| :: keys[i] in projects && rows[i] == projects[keys[i]]
      ensures forall row :: row in rows ==> row in projects.Values && row.userId == userId
      ensures forall k | k in projects && projects[k].userId == userId :: projects[k] in rows
      ensures State() == old(State())
    {
      log := log + [SearchProjectsCall(userId)];
      rows, keys := [], [];
      var left := projects.Keys;
      while left != {}
        invariant left <= projects.Keys
        invariant |rows| == |keys| && forall i | 0 <= i < |keys| :: keys[i] in projects && rows[i] == projects[keys[i]]
        invariant forall i, j | 0 <= i < j < |keys| :: keys[i] != keys[j]
        invariant forall k :: k in keys <==> k in projects && k !in left && projects[k].userId == userId
        decreases left
      {
        var k :| k in left;
        if projects[k].userId == userId {
          rows, keys := rows + [projects[k]], keys + [k];
        }
        left := left - {k};
      }
      forall k | k in projects && projects[k].userId == userId
        ensures projects[k] in rows
      {
        var i :| 0 <= i < |keys| && keys[i] == k;
        assert rows[i] == projects[k];
      }
    }

    method CreateRecord(userId: Value, projectId: Value, startTime: TimeArg, endTime: TimeArg,
                        description: Value, lunchMinutes: Value) returns (row: RecordRow)
      modifies this
      ensures log == old(log) + [CreateRecordCall(userId, projectId, startTime, endTime, description, lunchMinutes)]
      ensures row.id.Str? && row.id.s !in old(records) && records == old(records)[row.id.s := row]
      ensures |old(records)| < UuidCount ==> IsUuid(row.id)
      ensures row == RecordRow(row.id, userId, projectId, Resolve(startTime, clock), Resolve(endTime, clock), description, lunchMinutes, false)
      ensures latest == if projectId.Str? then old(latest)[userId := projectId.s] else old(latest)
      ensures projects == old(projects) && clock == old(clock)
    {
      var key := FreshUuid(records);
      row := RecordRow(Str(key), userId, projectId, Resolve(startTime, clock), Resolve(endTime, clock), description, lunchMinutes, false);
      records := records[key := row];
      if projectId.Str? {
        latest := latest[userId := projectId.s];
      }
      log := log + [CreateRecordCall(userId, projectId, startTime, endTime, description, lunchMinutes)];
    }

    method UpdateRecord(id: Value, patch: RecordPatch) returns (r: Outcome<RecordRow>)
      modifies this
      ensures log == old(log) + [UpdateRecordCall(id, patch)]
      ensures r.Ok? <==> id.Str? && id.s in old(records)
      ensures r.Ok? ==> r.value == Patched(old(records)[id.s], patch, clock) && records == old(records)[id.s := r.value]
      ensures r.Err? ==> r.error == UnknownRow && records == old(records)
      ensures projects == old(projects) && latest == old(latest) && clock == old(clock)
    {
      log := log + [UpdateRecordCall(id, patch)];
      if id.Str? && id.s in records {
        var row := Patched(records[id.s], patch, clock);
        records := records[id.s := row];
        r := Ok(row);
      } else {
        r := Err(UnknownRow);
      }
    }

    /**
     * `searchRecords` for `userId`'s undeleted records of `projectId` starting
     * between two instants: one row per matching stored record, in no
     * particular order; `keys` says which row is which.
     */
    method SearchRecords(userId: Value, projectId: Value, from: Value, to: Value)
      returns (rows: seq<RecordRow>, ghost keys: seq<string>)
      modifies this
      ensures log == old(log) + [SearchRecordsCall(userId, projectId, from, to)]
      ensures Enumerates(keys, MatchingRecordKeys(records, userId, projectId, from, to))
      ensures |rows| == |keys| && forall i | 0 <= i < |keys| :: keys[i] in records && rows[i] == records[keys[i]]
      ensures forall row :: row in rows ==> row in records.Values && Matches(row, userId, projectId, from, to)
      ensures forall k | k in records && Matches(records[k], userId, projectId, from, to) :: records[k] in rows
      ensures State() == old(State())
    {
      log := log + [SearchRecordsCall(userId, projectId, from, to)];
      rows, keys := [], [];
      var left := records.Keys;
      while left != {}
        invariant left <= records.Keys
        invariant |rows| == |keys| && forall i | 0 <= i < |keys| :: keys[i] in records && rows[i] == records[keys[i]]
        invariant forall i, j | 0 <= i < j < |keys| :: keys[i] != keys[j]
        invariant forall k :: k in keys <==> k in records && k !in left && Matches(records[k], userId, projectId, from, to)
        decreases left
      {
        var k :| k in left;
        if Matches(records[k], userId, projectId, from, to) {
          rows, keys := rows + [records[k]], keys + [k];
        }
        left := left - {k};
      }
      forall k | k in records && Matches(records[k], userId, projectId, from, to)
        ensures records[k] in rows
      {
        var i :| 0 <= i < |keys| && keys[i] == k;
        assert rows[i] == records[k];
      }
    }
  }
}

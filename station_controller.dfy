/**
 * The request logic of the station endpoints: the list query (page clamp,
 * name and status filters), the look-ups that gate updateStation and its
 * "new value if truthy, else the old one" merge, and the order of the two
 * checks of updateStationStatus. The station and user tables are abstract
 * maps from primary key to row.
 */
module StationController {
  import opened JsBuiltins
  import ListQuery

  /** A row of the station table; columns that may be NULL are options. */
  datatype Station = Station(
    id: int,
    name: Option<string>,
    address: Option<string>,
    latitude: Option<real>,
    longitude: Option<real>,
    managerId: Option<int>,
    status: Option<string>)

  /** The part of a user row that the manager check reads. */
  datatype User = User(id: int, role: string)

  predicate IsStationStatus(s: Option<string>)
  {
    s == Some("active") || s == Some("inactive")
  }

  // ---------------------------------------------------------------------------
  // getStationList
  // ---------------------------------------------------------------------------

  /** The `where` object of the station list: each field is set or absent. */
  datatype StationFilter = StationFilter(nameLike: Option<string>, status: Option<string>)

  /**
   * Assembles the `where` object field by field: a LIKE on the trimmed name
   * when it is not blank, the status only when it is on the whitelist
   * (any other status is dropped silently).
   */
  method BuildStationFilter(name: Option<string>, status: Option<string>) returns (filter: StationFilter)
    ensures filter.nameLike.Some? <==>
              name.Some? && exists i :: 0 <= i < |name.value| && !IsWhitespace(name.value[i])
    ensures filter.nameLike.Some? ==> filter.nameLike.value == "%" + Trim(name.value) + "%"
    ensures filter.status.Some? <==> IsStationStatus(status)
    ensures filter.status.Some? ==> filter.status == status
    ensures filter.nameLike == ListQuery.ContainsPattern(name)
  {
    filter := StationFilter(None, None);
    var pattern := ListQuery.ContainsPattern(name);
    if pattern.Some? {
      filter := filter.(nameLike := pattern);
    }
    if TruthyString(status) && IsStationStatus(status) {
      filter := filter.(status := status);
    }
  }

  /** The station-list query after normalisation. */
  datatype StationListQuery = StationListQuery(page: int, pageSize: int, offset: int, filter: StationFilter)

  method StationListRequest(page: Option<string>, pageSize: Option<string>, name: Option<string>, status: Option<string>)
    returns (q: StationListQuery)
    ensures q.page >= 1 && 1 <= q.pageSize <= 100
    ensures q.offset >= 0 && q.offset == ListQuery.Offset(q.page, q.pageSize)
    ensures q.page == ListQuery.Page(page) && q.pageSize == ListQuery.PageSize(pageSize)
    ensures q.filter.nameLike == ListQuery.ContainsPattern(name)
    ensures q.filter.nameLike.Some? <==>
              name.Some? && exists i :: 0 <= i < |name.value| && !IsWhitespace(name.value[i])
    ensures q.filter.nameLike.Some? ==> q.filter.nameLike.value == "%" + Trim(name.value) + "%"
    ensures q.filter.status.Some? <==> IsStationStatus(status)
    ensures q.filter.status.Some? ==> q.filter.status == status
  {
    var p := ListQuery.Page(page);
    var n := ListQuery.PageSize(pageSize);
    var filter := BuildStationFilter(name, status);
    q := StationListQuery(p, n, ListQuery.Offset(p, n), filter);
  }

  // ---------------------------------------------------------------------------
  // updateStation
  // ---------------------------------------------------------------------------

  /** The request body of updateStation; a missing field is None. */
  datatype StationUpdate = StationUpdate(
    name: Option<string>,
    address: Option<string>,
    latitude: Option<real>,
    longitude: Option<real>,
    managerId: Option<int>,
    status: Option<string>)

  /** StationUpdateFailed is the 500 answered when station.update throws. */
  datatype UpdateOutcome =
    | StationNotFound | NameTaken | ManagerMissing | StationUpdateFailed
    | StationUpdated(station: Station)

  /** `next || current` for a text column. */
  function MergeText(next: Option<string>, current: Option<string>): (r: Option<string>)
    ensures TruthyString(next) ==> r == next
    ensures !TruthyString(next) ==> r == current
  {
    if TruthyString(next) then next else current
  }

  /** `next || current` for a coordinate: 0 counts as absent. */
  function MergeNumber(next: Option<real>, current: Option<real>): (r: Option<real>)
    ensures TruthyNumber(next) ==> r == next
    ensures !TruthyNumber(next) ==> r == current
  {
    if TruthyNumber(next) then next else current
  }

  /** `next || current` for a manager id. */
  function MergeId(next: Option<int>, current: Option<int>): (r: Option<int>)
    ensures TruthyInt(next) ==> r == next
    ensures !TruthyInt(next) ==> r == current
  {
    if TruthyInt(next) then next else current
  }

  /** The row written back by updateStation. */
  function Merge(s: Station, u: StationUpdate): (r: Station)
    ensures r.id == s.id
    ensures r.name == MergeText(u.name, s.name) && r.address == MergeText(u.address, s.address)
    ensures r.latitude == MergeNumber(u.latitude, s.latitude)
    ensures r.longitude == MergeNumber(u.longitude, s.longitude)
    ensures r.managerId == MergeId(u.managerId, s.managerId)
    ensures r.status == MergeText(u.status, s.status)
  {
    Station(s.id, MergeText(u.name, s.name), MergeText(u.address, s.address),
            MergeNumber(u.latitude, s.latitude), MergeNumber(u.longitude, s.longitude),
            MergeId(u.managerId, s.managerId), MergeText(u.status, s.status))
  }

  /** Another station already carries this name. */
  predicate NameInUse(stations: map<int, Station>, name: string)
  {
    exists k :: k in stations && stations[k].name == Some(name)
  }

  predicate IsStationAdmin(users: map<int, User>, id: int)
  {
    id in users && users[id].role == "station_admin"
  }

  /** The name look-up runs (a truthy, changed name) and finds another station. */
  predicate NameClash(current: Station, u: StationUpdate, stations: map<int, Station>)
  {
    TruthyString(u.name) && u.name != current.name && NameInUse(stations, u.name.value)
  }

  /** The manager look-up runs (a truthy, changed id) and finds no station admin. */
  predicate ManagerRefused(current: Station, u: StationUpdate, users: map<int, User>)
  {
    TruthyInt(u.managerId) && u.managerId != current.managerId
    && !IsStationAdmin(users, u.managerId.value)
  }

  /**
   * The Station model's `isIn: [['active', 'inactive']]` validator on the
   * status column, as station.update runs it: only a column whose value
   * changes is validated, and a NULL value skips the validator.
   */
  predicate StatusRefused(current: Station, next: Station)
  {
    next.status != current.status && next.status.Some? && !IsStationStatus(next.status)
  }

  /** A status the validator admits, or NULL. */
  predicate StoredStatusOk(s: Station)
  {
    s.status.None? || IsStationStatus(s.status)
  }

  /**
   * updateStation: 404 when the station is missing; the name look-up runs
   * only for a truthy name that differs from the current one, the manager
   * look-up only for a truthy manager id that differs from the current one;
   * then every column takes the new value if truthy, else keeps the old one,
   * and the write fails with 500 when the status validator refuses the row.
   */
  function UpdateStation(id: int, u: StationUpdate, stations: map<int, Station>, users: map<int, User>): (r: UpdateOutcome)
    ensures r == StationNotFound <==> id !in stations
    ensures r == NameTaken <==> id in stations && NameClash(stations[id], u, stations)
    ensures r == ManagerMissing <==>
              id in stations && !NameClash(stations[id], u, stations)
              && ManagerRefused(stations[id], u, users)
    ensures r == StationUpdateFailed <==>
              id in stations && !NameClash(stations[id], u, stations)
              && !ManagerRefused(stations[id], u, users)
              && StatusRefused(stations[id], Merge(stations[id], u))
    ensures r.StationUpdated? <==>
              id in stations && !NameClash(stations[id], u, stations)
              && !ManagerRefused(stations[id], u, users)
              && !StatusRefused(stations[id], Merge(stations[id], u))
    ensures r.StationUpdated? ==> r.station == Merge(stations[id], u)
    ensures r.StationUpdated? && StoredStatusOk(stations[id]) ==> StoredStatusOk(r.station)
  {
    if id !in stations then StationNotFound
    else
      var current := stations[id];
      if NameClash(current, u, stations) then NameTaken
      else if ManagerRefused(current, u, users) then ManagerMissing
      else
        var next := Merge(current, u);
        if StatusRefused(current, next) then StationUpdateFailed else StationUpdated(next)
  }

  /**
   * In terms of the body: the write fails exactly for a non-empty status
   * that differs from the stored one and is not on the whitelist.
   */
  lemma StatusRefusedIff(s: Station, u: StationUpdate)
    ensures StatusRefused(s, Merge(s, u)) <==>
              TruthyString(u.status) && u.status != s.status && !IsStationStatus(u.status)
  {
  }

  /**
   * A zero coordinate, an empty string or a zero manager id never
   * overwrites the stored value.
   */
  lemma FalsyValuesKeepOldColumns(s: Station, u: StationUpdate)
    requires u.latitude == Some(0.0) && u.longitude == Some(0.0)
    requires u.name == Some("") && u.address == Some("") && u.status == Some("")
    requires u.managerId == Some(0)
    ensures Merge(s, u) == s
  {
  }

  /**
   * Resending the current name and manager skips both look-ups: the answer
   * depends only on the status validator.
   */
  lemma UnchangedNameAndManagerSkipLookups(id: int, u: StationUpdate, stations: map<int, Station>, users: map<int, User>)
    requires id in stations
    requires u.name == stations[id].name && u.managerId == stations[id].managerId
    ensures UpdateStation(id, u, stations, users) ==
              if StatusRefused(stations[id], Merge(stations[id], u)) then StationUpdateFailed
              else StationUpdated(Merge(stations[id], u))
  {
  }

  /**
   * A body that carries only a non-empty status gets the same verdict from
   * both endpoints when the stored row passed the validator: a whitelisted
   * status is written by both, any other is refused by both, with 500 by
   * updateStation and with 400 by updateStationStatus.
   */
  lemma StatusOnlyBodyOnBothEndpoints(id: int, v: string, stations: map<int, Station>, users: map<int, User>)
    requires id in stations && StoredStatusOk(stations[id]) && v != ""
    ensures var u := StationUpdate(None, None, None, None, None, Some(v));
            UpdateStation(id, u, stations, users) ==
              if IsStationStatus(Some(v)) then StationUpdated(stations[id].(status := Some(v)))
              else StationUpdateFailed
    ensures UpdateStationStatus(id, Some(v), stations) ==
              if IsStationStatus(Some(v)) then StatusSet(stations[id].(status := Some(v)))
              else InvalidStationStatus
  {
  }

  // ---------------------------------------------------------------------------
  // updateStationStatus
  // ---------------------------------------------------------------------------

  datatype StatusOutcome = MissingStation | InvalidStationStatus | StatusSet(station: Station)

  /** updateStationStatus: "station missing" (404) is checked before "invalid status" (400). */
  function UpdateStationStatus(id: int, status: Option<string>, stations: map<int, Station>): (r: StatusOutcome)
    ensures r == MissingStation <==> id !in stations
    ensures r == InvalidStationStatus <==> id in stations && !IsStationStatus(status)
    ensures r.StatusSet? ==> id in stations && r.station == stations[id].(status := status)
  {
    if id !in stations then MissingStation
    else if !IsStationStatus(status) then InvalidStationStatus
    else StatusSet(stations[id].(status := status))
  }
}

/** The quality-of-service frequency allocator of `apps/common/app_utils.c`: each user's requested level
    is packed into five bits of one word and its liveness into one bit of another. */
module QosFreq {

  const USERS := 7

  /** Position of a user in `user_map`. */
  type Idx = i: bv7 | i < 7

  /** `user_map`, in the numbering of APP_SYSFREQ_USER_APP_n. The last entry repeats the first. */
  const USER_MAP: seq<nat> := [5, 3, 6, 10, 16, 17, 5]

  datatype Option<T> = None | Some(value: T)

  // ---- The packed words ----

  function Field(freqs: bv64, i: Idx): bv64 {
    (freqs >> (5 * i)) & 0x1F
  }

  function Clear(freqs: bv64, i: Idx): bv64 {
    freqs & !(0x1F << (5 * i))
  }

  function Place(freqs: bv64, i: Idx, f: bv64): bv64 {
    Clear(freqs, i) | (f << (5 * i))
  }

  predicate IsLive(users: bv32, i: Idx) {
    (users >> i) & 1 == 1
  }

  function Mark(users: bv32, i: Idx): bv32 {
    users | (1 << i)
  }

  function Unmark(users: bv32, i: Idx): bv32 {
    users & !(1 << i)
  }

  function Nth(n: nat): Idx
    requires n < USERS
  {
    match n
    case 0 => 0
    case 1 => 1
    case 2 => 2
    case 3 => 3
    case 4 => 4
    case 5 => 5
    case _ => 6
  }

  lemma IdxCases(i: Idx)
    ensures i == 0 || i == 1 || i == 2 || i == 3 || i == 4 || i == 5 || i == 6
  {
  }

  /** Writing one user's field is read back by that user and by nobody else. */
  lemma FieldOfPlace(freqs: bv64, i: Idx, f: bv64, j: Idx)
    requires f < 32
    ensures Field(Place(freqs, i, f), j) == if i == j then f else Field(freqs, j)
  {
    hide Field, Place;
    if i < 2 {
      FieldOfPlaceLow(freqs, i, f, j);
    } else if i < 4 {
      FieldOfPlaceMid(freqs, i, f, j);
    } else {
      FieldOfPlaceHigh(freqs, i, f, j);
    }
  }

  lemma FieldOfPlaceLow(freqs: bv64, i: Idx, f: bv64, j: Idx)
    requires f < 32 && i < 2
    ensures Field(Place(freqs, i, f), j) == if i == j then f else Field(freqs, j)
  {
    assert i == 0 || i == 1;
    IdxCases(j);
  }

  lemma FieldOfPlaceMid(freqs: bv64, i: Idx, f: bv64, j: Idx)
    requires f < 32 && 2 <= i < 4
    ensures Field(Place(freqs, i, f), j) == if i == j then f else Field(freqs, j)
  {
    assert i == 2 || i == 3;
    IdxCases(j);
  }

  lemma FieldOfPlaceHigh(freqs: bv64, i: Idx, f: bv64, j: Idx)
    requires f < 32 && 4 <= i
    ensures Field(Place(freqs, i, f), j) == if i == j then f else Field(freqs, j)
  {
    assert i == 4 || i == 5 || i == 6;
    IdxCases(j);
  }

  lemma FieldOfClear(freqs: bv64, i: Idx, j: Idx)
    ensures Field(Clear(freqs, i), j) == if i == j then 0 else Field(freqs, j)
  {
    hide Field, Clear;
    if i < 2 {
      FieldOfClearLow(freqs, i, j);
    } else if i < 4 {
      FieldOfClearMid(freqs, i, j);
    } else {
      FieldOfClearHigh(freqs, i, j);
    }
  }

  lemma FieldOfClearLow(freqs: bv64, i: Idx, j: Idx)
    requires i < 2
    ensures Field(Clear(freqs, i), j) == if i == j then 0 else Field(freqs, j)
  {
    assert i == 0 || i == 1;
    IdxCases(j);
  }

  lemma FieldOfClearMid(freqs: bv64, i: Idx, j: Idx)
    requires 2 <= i < 4
    ensures Field(Clear(freqs, i), j) == if i == j then 0 else Field(freqs, j)
  {
    assert i == 2 || i == 3;
    IdxCases(j);
  }

  lemma FieldOfClearHigh(freqs: bv64, i: Idx, j: Idx)
    requires 4 <= i
    ensures Field(Clear(freqs, i), j) == if i == j then 0 else Field(freqs, j)
  {
    assert i == 4 || i == 5 || i == 6;
    IdxCases(j);
  }

  lemma LiveOfMark(users: bv32, i: Idx, j: Idx)
    ensures IsLive(Mark(users, i), j) <==> i == j || IsLive(users, j)
    ensures IsLive(Unmark(users, i), j) <==> i != j && IsLive(users, j)
  {
    IdxCases(i);
    IdxCases(j);
  }

  /** A frequency table: starts at 0, its indices fit in five bits, and the sum of the users' MHz fits in
      32. Levels that the table does not name are zero holes. */
  predicate Table(freqMap: seq<nat>) {
    && 0 < |freqMap| <= 32 && freqMap[0] == 0
    && (forall a | 0 <= a < |freqMap| :: freqMap[a] < 0x1000_0000)
  }

  /** Apart from its holes the table ascends. */
  predicate Ascending(freqMap: seq<nat>) {
    forall a, b | 0 <= a < b < |freqMap| && freqMap[b] != 0 :: freqMap[a] < freqMap[b]
  }

  /** The table of a chip with a 15 MHz level: the enumeration has levels the table does not name. */
  const BEST1603_MAP: seq<nat> := [0, 0, 0, 0, 15, 0, 0, 24, 30, 0, 0, 48, 0, 72, 0, 96, 120, 144, 168, 208]

  /** The table of the other chips. */
  const PLAIN_MAP: seq<nat> := [0, 26, 52, 78, 104, 208]

  lemma TablesOfTheSource()
    ensures Table(BEST1603_MAP) && Ascending(BEST1603_MAP)
    ensures Table(PLAIN_MAP) && Ascending(PLAIN_MAP)
  {
    HoledTable();
    PlainTable();
    hide Table, Ascending;
  }

  lemma HoledTable()
    ensures Table(BEST1603_MAP) && Ascending(BEST1603_MAP)
  {
  }

  lemma PlainTable()
    ensures Table(PLAIN_MAP) && Ascending(PLAIN_MAP)
  {
  }

  /** What a user's part of the words means: its live request, if any. */
  function Request(freqs: bv64, users: bv32, i: Idx): Option<bv64> {
    if IsLive(users, i) then Some(Field(freqs, i)) else None
  }

  /** `freq_map[f]`. */
  function Mhz(freqMap: seq<nat>, f: bv64): nat {
    if f as nat < |freqMap| then freqMap[f as nat] else 0
  }

  /** A level other than the released one that is in a table of this size. */
  predicate InTable(f: bv64, size: nat) {
    0 < f as nat < size
  }

  /** MHz of a request. */
  function Asked(freqMap: seq<nat>, request: Option<bv64>): nat {
    match request
    case Some(f) => Mhz(freqMap, f)
    case None => 0
  }

  /** MHz asked for by one user. */
  function Term(freqMap: seq<nat>, freqs: bv64, users: bv32, i: Idx): nat {
    Asked(freqMap, Request(freqs, users, i))
  }

  /** MHz asked for by the first `n` users. */
  function Total(freqMap: seq<nat>, freqs: bv64, users: bv32, n: nat): nat
    requires n <= USERS
  {
    if n == 0 then 0 else Total(freqMap, freqs, users, n - 1) + Term(freqMap, freqs, users, Nth(n - 1))
  }

  /** The least level that covers `mhz`, or the top level if none does. */
  ghost predicate LeastCover(freqMap: seq<nat>, mhz: nat, level: nat)
    requires Table(freqMap)
  {
    && level < |freqMap|
    && (forall k | 0 <= k < level :: freqMap[k] < mhz)
    && (mhz <= freqMap[level] || level == |freqMap| - 1)
  }

  /** `Unknown`: the assert for a user that is not in the map. `Level` goes to `hal_sysfreq_req` for the
      common QoS user; `Direct` is the plain call for everybody else. */
  datatype Outcome = Rejected | Unknown | Level(level: nat) | Direct(user: nat, freq: bv64)

  /** First position of a user from `from` on, 7 if there is none. */
  function IndexOf(user: nat, from: nat): (i: nat)
    requires from <= USERS
    ensures from <= i <= USERS
    decreases USERS - from
  {
    if from == USERS || USER_MAP[from] == user then from else IndexOf(user, from + 1)
  }

  /** One QoS request takes the words from `was` to `now`: rejected and unknown ones change nothing; any
      other updates that user's part and asks for the least level covering the new total. */
  ghost predicate QosStep(freqMap: seq<nat>, was: (bv64, bv32), user: nat, freq: bv64, r: Outcome, now: (bv64, bv32))
    requires Table(freqMap)
  {
    if freq as nat >= |freqMap| then r == Rejected && now == was
    else if IndexOf(user, 0) == USERS then r == Unknown && now == was
    else
      && now == Updated(was.0, was.1, Nth(IndexOf(user, 0)), freq)
      && r.Level? && LeastCover(freqMap, Total(freqMap, now.0, now.1, USERS), r.level)
  }

  class Allocator {
    const freqMap: seq<nat>
    var qosFreqsMap: bv64
    var qosUsersMap: bv32

    ghost predicate Valid()
      reads this
    {
      Table(freqMap) && Canonical(freqMap, qosFreqsMap, qosUsersMap)
    }

    constructor (freqMap: seq<nat>)
      requires Table(freqMap)
      ensures Valid() && this.freqMap == freqMap && qosFreqsMap == 0 && qosUsersMap == 0
    {
      this.freqMap := freqMap;
      qosFreqsMap, qosUsersMap := 0, 0;
      new;
      NothingLive(freqMap);
    }

    /** The sum over live users. */
    method SumRequests() returns (maxQosFreq: nat)
      requires Valid()
      ensures maxQosFreq == Total(freqMap, qosFreqsMap, qosUsersMap, USERS)
    {
      hide Field, IsLive, Canonical, Nth, Mhz;
      maxQosFreq := 0;
      for i := 0 to USERS
        invariant maxQosFreq == Total(freqMap, qosFreqsMap, qosUsersMap, i)
      {
        if IsLive(qosUsersMap, Nth(i)) {
          maxQosFreq := maxQosFreq + Mhz(freqMap, Field(qosFreqsMap, Nth(i)));
        }
      }
    }

    /** The level search: the first entry whose range holds the sum. */
    method FindLevel(mhz: nat) returns (level: nat)
      requires Table(freqMap)
      ensures LeastCover(freqMap, mhz, level)
    {
      level := 0;
      var i := 0;
      while i < |freqMap|
        invariant 0 <= i <= |freqMap|
        invariant forall k | 0 <= k < i :: freqMap[k] < mhz
      {
        if i > 0 {
          if mhz > freqMap[i - 1] && mhz <= freqMap[i] {
            level := i;
            break;
          }
        } else {
          if mhz == freqMap[i] {
            level := i;
            break;
          }
        }
        i := i + 1;
      }
      if i >= |freqMap| {
        level := |freqMap| - 1;
      }
    }

    /** `app_qosfreq_req`. */
    method QosFreqReq(user: nat, freq: bv64) returns (r: Outcome)
      requires Valid()
      modifies this
      ensures Valid()
      ensures QosStep(freqMap, old((qosFreqsMap, qosUsersMap)), user, freq, r, (qosFreqsMap, qosUsersMap))
    {
      if freq as nat >= |freqMap| {
        return Rejected;
      }
      var n := 0;
      while n < USERS && user != USER_MAP[n]
        invariant 0 <= n <= USERS && IndexOf(user, 0) == IndexOf(user, n)
      {
        n := n + 1;
      }
      if n >= USERS {
        return Unknown;
      }
      var i := Nth(n);
      UpdateKeepsCanonical(freqMap, qosFreqsMap, qosUsersMap, i, freq);
      hide Canonical, Clear, Place, Mark, Unmark, LeastCover, Total;
      if freq != 0 {
        qosFreqsMap := Place(qosFreqsMap, i, freq);
        qosUsersMap := Mark(qosUsersMap, i);
      } else {
        qosFreqsMap := Clear(qosFreqsMap, i);
        qosUsersMap := Unmark(qosUsersMap, i);
      }
      var mhz := SumRequests();
      var level := FindLevel(mhz);
      return Level(level);
    }

    /** `app_sysfreq_req`. */
    method SysFreqReq(user: nat, freq: bv64) returns (r: Outcome)
      requires Valid()
      modifies this
      ensures Valid()
      ensures user !in USER_MAP ==> r == Direct(user, freq) && unchanged(this)
      ensures user in USER_MAP ==>
                QosStep(freqMap, old((qosFreqsMap, qosUsersMap)), user, freq, r, (qosFreqsMap, qosUsersMap))
                && !r.Unknown?
    {
      if user in USER_MAP {
        FoundIfListed(user);
        r := QosFreqReq(user, freq);
      } else {
        r := Direct(user, freq);
      }
    }
  }

  /** The words after a request or, for level 0, a release. */
  function Updated(freqs: bv64, users: bv32, i: Idx, freq: bv64): (bv64, bv32) {
    if freq != 0 then (Place(freqs, i, freq), Mark(users, i)) else (Clear(freqs, i), Unmark(users, i))
  }

  predicate Stored(size: nat, live: bool, f: bv64) {
    if live then InTable(f, size) else f == 0
  }

  /** Live fields hold a level of the table other than 0, all others are zero. */
  ghost predicate Canonical(freqMap: seq<nat>, freqs: bv64, users: bv32) {
    forall i: Idx :: Stored(|freqMap|, IsLive(users, i), Field(freqs, i))
  }

  lemma NothingLive(freqMap: seq<nat>)
    ensures Canonical(freqMap, 0, 0) && forall i: Idx :: Request(0, 0, i) == None
  {
    forall i: Idx
      ensures !IsLive(0, i) && Field(0, i) == 0
    {
      IdxCases(i);
    }
  }

  lemma {:induction false} FoundIfListed(user: nat)
    requires user in USER_MAP
    ensures IndexOf(user, 0) < USERS
  {
    var k :| 0 <= k < 7 && USER_MAP[k] == user;
    assert IndexOf(user, 6) == (if user == 5 then 6 else 7);
    assert IndexOf(user, 4) <= 5 || IndexOf(user, 4) == IndexOf(user, 6);
    assert IndexOf(user, 2) <= 3 || IndexOf(user, 2) == IndexOf(user, 4);
    assert IndexOf(user, 0) <= 1 || IndexOf(user, 0) == IndexOf(user, 2);
  }

  /** A request replaces that user's live request and touches no other. */
  lemma UpdateDenotes(freqs: bv64, users: bv32, i: Idx, freq: bv64, j: Idx)
    requires freq < 32
    ensures var (freqs', users') := Updated(freqs, users, i, freq);
            Request(freqs', users', j) ==
            if i == j then (if freq == 0 then None else Some(freq)) else Request(freqs, users, j)
  {
    hide Field, Clear, Place, IsLive, Mark, Unmark;
    FieldOfPlace(freqs, i, freq, j);
    FieldOfClear(freqs, i, j);
    LiveOfMark(users, i, j);
  }

  lemma LevelBits(freq: bv64, size: nat)
    requires freq as nat < size <= 32
    ensures freq < 32 && (freq != 0 ==> InTable(freq, size))
  {
  }

  lemma UpdateStores(size: nat, freqs: bv64, users: bv32, i: Idx, freq: bv64, j: Idx)
    requires Stored(size, IsLive(users, j), Field(freqs, j)) && freq as nat < size <= 32
    ensures var (freqs', users') := Updated(freqs, users, i, freq); Stored(size, IsLive(users', j), Field(freqs', j))
  {
    hide Field, Clear, Place, IsLive, Mark, Unmark;
    LiveOfMark(users, i, j);
    LevelBits(freq, size);
    if freq != 0 {
      FieldOfPlace(freqs, i, freq, j);
    } else {
      FieldOfClear(freqs, i, j);
    }
    hide InTable;
  }

  lemma UpdateKeepsCanonical(freqMap: seq<nat>, freqs: bv64, users: bv32, i: Idx, freq: bv64)
    requires Canonical(freqMap, freqs, users) && freq as nat < |freqMap| <= 32
    ensures var (freqs', users') := Updated(freqs, users, i, freq); Canonical(freqMap, freqs', users')
  {
    hide Field, IsLive, Updated, Stored;
    var (freqs', users') := Updated(freqs, users, i, freq);
    forall j: Idx
      ensures Stored(|freqMap|, IsLive(users', j), Field(freqs', j))
    {
      UpdateStores(|freqMap|, freqs, users, i, freq, j);
    }
  }

  // ---- The demand ----

  /** The demand is the sum over the seven places of the map. */
  lemma {:induction false} TotalIsSum(freqMap: seq<nat>, freqs: bv64, users: bv32)
    ensures Total(freqMap, freqs, users, USERS)
         == Asked(freqMap, Request(freqs, users, 0)) + Asked(freqMap, Request(freqs, users, 1))
            + Asked(freqMap, Request(freqs, users, 2)) + Asked(freqMap, Request(freqs, users, 3))
            + Asked(freqMap, Request(freqs, users, 4)) + Asked(freqMap, Request(freqs, users, 5))
            + Asked(freqMap, Request(freqs, users, 6))
  {
    hide Request, Mhz;
    assert Total(freqMap, freqs, users, 1) == Asked(freqMap, Request(freqs, users, 0));
    assert Total(freqMap, freqs, users, 3)
        == Asked(freqMap, Request(freqs, users, 0)) + Asked(freqMap, Request(freqs, users, 1))
           + Asked(freqMap, Request(freqs, users, 2));
    assert Total(freqMap, freqs, users, 5) == Total(freqMap, freqs, users, 3)
           + Asked(freqMap, Request(freqs, users, 3)) + Asked(freqMap, Request(freqs, users, 4));
  }

  /** A request or release changes the demand by what it asks for more or less than the one it replaces. */
  lemma {:induction false} UpdateMovesTotal(freqMap: seq<nat>, freqs: bv64, users: bv32, i: Idx, freq: bv64)
    requires freq < 32
    ensures var (freqs', users') := Updated(freqs, users, i, freq);
            Total(freqMap, freqs', users', USERS) + Asked(freqMap, Request(freqs, users, i))
            == Total(freqMap, freqs, users, USERS) + Asked(freqMap, if freq == 0 then None else Some(freq))
  {
    hide Request, Updated, Total, Mhz;
    var (freqs', users') := Updated(freqs, users, i, freq);
    forall j: Idx
      ensures Request(freqs', users', j) ==
              if i == j then (if freq == 0 then None else Some(freq)) else Request(freqs, users, j)
    {
      UpdateDenotes(freqs, users, i, freq, j);
    }
    TotalIsSum(freqMap, freqs, users);
    TotalIsSum(freqMap, freqs', users');
    IdxCases(i);
  }

  /** Two live requests alone add up. */
  lemma {:induction false} TotalOfTwo(freqMap: seq<nat>, freqs: bv64, users: bv32, i: Idx, f: bv64, k: Idx, g: bv64)
    requires i != k && Request(freqs, users, i) == Some(f) && Request(freqs, users, k) == Some(g)
    requires forall j: Idx | j != i && j != k :: Request(freqs, users, j) == None
    ensures Total(freqMap, freqs, users, USERS) == Mhz(freqMap, f) + Mhz(freqMap, g)
  {
    hide Request, Total, Mhz;
    TotalIsSum(freqMap, freqs, users);
    IdxCases(i);
    IdxCases(k);
  }

  // ---- Runs ----

  datatype Call = Call(i: Idx, freq: bv64)

  function RunCalls(calls: seq<Call>): (bv64, bv32)
    decreases |calls|
  {
    if calls == [] then (0, 0)
    else
      var (freqs, users) := RunCalls(calls[..|calls| - 1]);
      Updated(freqs, users, calls[|calls| - 1].i, calls[|calls| - 1].freq)
  }

  /** A user's most recent call, unless that released. */
  function Latest(calls: seq<Call>, j: Idx): Option<bv64>
    decreases |calls|
  {
    if calls == [] then None
    else
      var c := calls[|calls| - 1];
      if c.i != j then Latest(calls[..|calls| - 1], j) else if c.freq == 0 then None else Some(c.freq)
  }

  /** After any run of requests and releases the two words denote exactly every user's latest live
      request. */
  lemma {:induction false} WordsDenoteLatest(calls: seq<Call>, j: Idx)
    requires forall c | c in calls :: c.freq < 32
    ensures Request(RunCalls(calls).0, RunCalls(calls).1, j) == Latest(calls, j)
    decreases |calls|
  {
    if calls == [] {
      NothingLive([]);
    } else {
      hide Updated, Request;
      var last := calls[|calls| - 1];
      var before := calls[..|calls| - 1];
      assert last in calls;
      WordsDenoteLatest(before, j);
      var (freqs, users) := RunCalls(before);
      UpdateDenotes(freqs, users, last.i, last.freq, j);
    }
  }

  /** After any run the demand is what the latest requests of all users name together. */
  lemma {:induction false} RunDemandsLatest(freqMap: seq<nat>, calls: seq<Call>)
    requires forall c | c in calls :: c.freq < 32
    ensures Total(freqMap, RunCalls(calls).0, RunCalls(calls).1, USERS)
         == Asked(freqMap, Latest(calls, 0)) + Asked(freqMap, Latest(calls, 1)) + Asked(freqMap, Latest(calls, 2))
            + Asked(freqMap, Latest(calls, 3)) + Asked(freqMap, Latest(calls, 4)) + Asked(freqMap, Latest(calls, 5))
            + Asked(freqMap, Latest(calls, 6))
  {
    hide RunCalls, Total, Latest, Request, Mhz;
    TotalIsSum(freqMap, RunCalls(calls).0, RunCalls(calls).1);
    forall j: Idx
      ensures Request(RunCalls(calls).0, RunCalls(calls).1, j) == Latest(calls, j)
    {
      WordsDenoteLatest(calls, j);
    }
  }

  /** Two users that ask for 26 MHz each get 52 MHz, level 2. */
  lemma TwoUsersExample(level: nat)
    requires Table(PLAIN_MAP)
    ensures var (freqs, users) := RunCalls([Call(0, 1), Call(1, 1)]);
      && Total(PLAIN_MAP, freqs, users, USERS) == 52
      && (LeastCover(PLAIN_MAP, Total(PLAIN_MAP, freqs, users, USERS), level) <==> level == 2)
  {
    var calls := [Call(0, 1), Call(1, 1)];
    assert calls[..1] == [Call(0, 1)] && calls[..1][..0] == [];
    assert Latest(calls[..1][..0], 0) == None;
    hide RunCalls, Total;
    RunDemandsLatest(PLAIN_MAP, calls);
    LatestOfTwo(calls);
    assert PLAIN_MAP[1] == 26 && PLAIN_MAP[2] == 52;
  }

  lemma LatestOfTwo(calls: seq<Call>)
    requires calls == [Call(0, 1), Call(1, 1)]
    ensures forall j: Idx :: Latest(calls, j) == if j < 2 then Some(1) else None
  {
    assert calls[..1] == [Call(0, 1)] && calls[..1][..0] == [];
    forall j: Idx
      ensures Latest(calls, j) == if j < 2 then Some(1) else None
    {
      IdxCases(j);
      assert Latest(calls[..1], j) == if j == 0 then Some(1) else None;
    }
  }

  /** The place of every user of the enumeration. */
  lemma {:induction false} PlaceOfUser(user: nat)
    ensures IndexOf(user, 0) == match user
                                case 5 => 0
                                case 3 => 1
                                case 6 => 2
                                case 10 => 3
                                case 16 => 4
                                case 17 => 5
                                case _ => USERS
  {
    assert IndexOf(user, 6) == (if user == 5 then 6 else 7);
    assert IndexOf(user, 4) == (if user == 16 then 4 else if user == 17 then 5 else IndexOf(user, 6));
    assert IndexOf(user, 2) == (if user == 6 then 2 else if user == 10 then 3 else IndexOf(user, 4));
  }

  /** The level is determined by the demand, holes or not: a level covers it if and only if it names at
      least as many MHz as the chosen one; if none does, the top level is chosen. */
  lemma LeastCoverMeans(freqMap: seq<nat>, mhz: nat, level: nat, other: nat)
    requires Table(freqMap) && Ascending(freqMap) && LeastCover(freqMap, mhz, level) && other < |freqMap|
    ensures (exists k | 0 <= k < |freqMap| :: mhz <= freqMap[k]) ==>
              (mhz <= freqMap[other] <==> freqMap[level] <= freqMap[other])
    ensures (forall k | 0 <= k < |freqMap| :: freqMap[k] < mhz) ==> level == |freqMap| - 1
  {
    if k :| 0 <= k < |freqMap| && mhz <= freqMap[k] {
      assert level <= k;
      assert mhz <= freqMap[level];
    }
    if mhz <= freqMap[other] {
      assert level <= other;
    }
  }

  /** Whoever else has asked for something: a live request for level `f` is met if and only if `f` names some
      MHz, or the demand of all users exceeds everything below it. A hole adds nothing to the demand. */
  lemma {:induction false} RequestIsMetIff(freqMap: seq<nat>, freqs: bv64, users: bv32, i: Idx, f: bv64, level: nat)
    requires Table(freqMap) && Ascending(freqMap) && f as nat < |freqMap|
    requires Request(freqs, users, i) == Some(f)
    requires LeastCover(freqMap, Total(freqMap, freqs, users, USERS), level)
    ensures level >= f as nat
       <==> f == 0 || freqMap[f as nat] != 0
            || forall k | 0 <= k < f as nat :: freqMap[k] < Total(freqMap, freqs, users, USERS)
  {
    hide Request;
    TotalCovers(freqMap, freqs, users, i, USERS);
    IdxCases(i);
    MetIff(freqMap, f as nat, Total(freqMap, freqs, users, USERS), level);
  }

  lemma MetIff(freqMap: seq<nat>, f: nat, mhz: nat, level: nat)
    requires Table(freqMap) && Ascending(freqMap) && f < |freqMap| && freqMap[f] <= mhz
    requires LeastCover(freqMap, mhz, level)
    ensures level >= f <==> f == 0 || freqMap[f] != 0 || forall k | 0 <= k < f :: freqMap[k] < mhz
  {
    if f > 0 && freqMap[f] != 0 {
      assert forall k | 0 <= k < f :: freqMap[k] < freqMap[f];
    }
  }

  /** The demand of all users covers that of each. */
  lemma {:induction false} TotalCovers(freqMap: seq<nat>, freqs: bv64, users: bv32, i: Idx, n: nat)
    requires n <= USERS && Position(i) < n
    ensures Total(freqMap, freqs, users, n) >= Term(freqMap, freqs, users, i)
  {
    hide Term;
    PositionOfNth(n - 1, i);
    if Position(i) < n - 1 {
      TotalCovers(freqMap, freqs, users, i, n - 1);
    }
  }

  /** The same after any run of requests and releases, for each user's latest request. */
  lemma {:induction false} RunMeetsIff(freqMap: seq<nat>, calls: seq<Call>, i: Idx, f: bv64, level: nat)
    requires Table(freqMap) && Ascending(freqMap) && forall c | c in calls :: c.freq as nat < |freqMap|
    requires Latest(calls, i) == Some(f) && f as nat < |freqMap|
    requires LeastCover(freqMap, Total(freqMap, RunCalls(calls).0, RunCalls(calls).1, USERS), level)
    ensures level >= f as nat
       <==> freqMap[f as nat] != 0
            || forall k | 0 <= k < f as nat :: freqMap[k] < Total(freqMap, RunCalls(calls).0, RunCalls(calls).1, USERS)
  {
    forall c | c in calls ensures c.freq < 32 {
      LevelBits(c.freq, |freqMap|);
    }
    WordsDenoteLatest(calls, i);
    LatestIsNoRelease(calls, i);
    RequestIsMetIff(freqMap, RunCalls(calls).0, RunCalls(calls).1, i, f, level);
    hide RunCalls, Total;
  }

  lemma {:induction false} LatestIsNoRelease(calls: seq<Call>, i: Idx)
    ensures Latest(calls, i) != Some(0)
    decreases |calls|
  {
    if calls == [] {
    } else {
      LatestIsNoRelease(calls[..|calls| - 1], i);
    }
  }

  /** One live request alone is granted if and only if its level is not a hole of the table. */
  lemma {:induction false} AloneIsGrantedIff(freqMap: seq<nat>, freqs: bv64, users: bv32, i: Idx, f: bv64, level: nat)
    requires Table(freqMap) && Ascending(freqMap) && f as nat < |freqMap|
    requires forall j: Idx :: Request(freqs, users, j) == if i == j then Some(f) else None
    requires LeastCover(freqMap, Total(freqMap, freqs, users, USERS), level)
    ensures level == f as nat <==> f == 0 || freqMap[f as nat] != 0
  {
    hide Request;
    TotalOfOne(freqMap, freqs, users, i, f, USERS);
    IdxCases(i);
    RequestIsMetIff(freqMap, freqs, users, i, f, level);
    hide Total;
    assert f != 0 && freqMap[f as nat] == 0 ==> freqMap[0] == 0;
  }

  function Position(i: Idx): nat {
    if i == 0 then 0 else if i == 1 then 1 else if i == 2 then 2 else if i == 3 then 3
    else if i == 4 then 4 else if i == 5 then 5 else 6
  }

  lemma {:induction false} TotalOfOne(freqMap: seq<nat>, freqs: bv64, users: bv32, i: Idx, f: bv64, n: nat)
    requires n <= USERS
    requires forall j: Idx :: Request(freqs, users, j) == if i == j then Some(f) else None
    ensures Total(freqMap, freqs, users, n) == if Position(i) < n then Mhz(freqMap, f) else 0
  {
    hide Request, Mhz;
    if n == 0 {
    } else {
      TotalOfOne(freqMap, freqs, users, i, f, n - 1);
      PositionOfNth(n - 1, i);
    }
  }

  lemma PositionOfNth(n: nat, i: Idx)
    requires n < USERS
    ensures Nth(n) == i <==> Position(i) == n
  {
    IdxCases(i);
  }

  /** A run in which the only request, for level 9 (36 MHz) of the table with holes, is answered with level 0. */
  lemma HoleWitness(level: nat)
    requires Table(BEST1603_MAP)
    ensures var (freqs, users) := RunCalls([Call(1, 9)]);
      && Request(freqs, users, 1) == Some(9) && Total(BEST1603_MAP, freqs, users, USERS) == 0
      && (LeastCover(BEST1603_MAP, Total(BEST1603_MAP, freqs, users, USERS), level) <==> level == 0)
  {
    var calls := [Call(1, 9)];
    var (freqs, users) := RunCalls(calls);
    assert calls[..0] == [];
    hide Request, RunCalls;
    forall j: Idx ensures Request(freqs, users, j) == if j == 1 then Some(9) else None {
      WordsDenoteLatest(calls, j);
    }
    TotalOfOne(BEST1603_MAP, freqs, users, 1, 9, USERS);
    assert BEST1603_MAP[9] == 0;
  }

  /** Beside a request for 48 MHz, level 11, the same request is met. */
  lemma HoleBesideOthers(freqs: bv64, users: bv32, level: nat)
    requires Request(freqs, users, 1) == Some(9) && Request(freqs, users, 2) == Some(11)
    requires Table(BEST1603_MAP) && LeastCover(BEST1603_MAP, Total(BEST1603_MAP, freqs, users, USERS), level)
    ensures level >= 11
  {
    TablesOfTheSource();
    hide Request;
    RequestIsMetIff(BEST1603_MAP, freqs, users, 2, 11, level);
  }
}

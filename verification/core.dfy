/** The shared helpers of js/core.js: the API-key slot in local storage, the
    exercise data, timestamp and results in session storage, random data
    generation, basic statistics, tolerant number comparison and the exercise
    id taken from the page path. The clock (`Date.now()`) and `Math.random()`
    are parameters. */
module Core {
  import opened Wrappers
  import opened JsStrings

  /** Local-storage key of the API credential. */
  const ApiKeySlot := "la_matriu_key"
  /** Shortest trimmed key that `saveApiKey` accepts. */
  const MinSavedKeyLength := 10
  /** The one key that `isInjectedApiKey` treats as not injected by the deploy
      (the literal compared against at js/core.js:66; no property depends on
      its value). */
  const KnownNonInjectedKey: string
  /** Recency window of the saved exercise data, in milliseconds. */
  const OneHourMs := 60 * 60 * 1000
  /** Field that `saveExerciseResults` stamps onto every saved result. */
  const TimestampField := "timestamp"

  datatype Stats = Stats(min: real, max: real, count: int)

  /** A saved exercise result: the caller's fields, stamped with the save time
      (the stamp overrides any `timestamp` field the caller passed). */
  datatype StampedResult = StampedResult(fields: map<string, string>, timestamp: int)

  /* ---------- API key predicates ---------- */

  /** `saveApiKey`'s guard: a key is refused when missing, empty or shorter
      than ten characters once trimmed. */
  predicate ApiKeyAccepted(key: Option<string>) {
    !(key.None? || key.value == "" || |Trim(key.value)| < MinSavedKeyLength)
  }

  /** `hasApiKey` on a stored value. */
  predicate HasApiKeyValue(stored: Option<string>) {
    stored.Some? && |stored.value| > 10
  }

  /** `isInjectedApiKey` on a stored value. */
  predicate IsInjectedKeyValue(stored: Option<string>) {
    stored.Some? && stored.value != KnownNonInjectedKey && |stored.value| > 20
  }

  /** What `saveApiKey` writes into the slot when the guard lets the key through. */
  function SavedKey(key: Option<string>): (stored: Option<string>)
    ensures stored.Some? <==> ApiKeyAccepted(key)
    ensures stored.Some? ==> stored.value == Trim(key.value)
    ensures stored.Some? ==> |stored.value| >= MinSavedKeyLength
  {
    if ApiKeyAccepted(key) then Some(Trim(key.value)) else None
  }

  /** The thresholds of `saveApiKey` (at least 10) and `hasApiKey` (more than
      10) disagree: a key of trimmed length exactly 10 is saved and then
      reported absent; one character longer and it is reported present. */
  lemma SavedKeyReportedIffLongerThanTen(key: Option<string>)
    requires ApiKeyAccepted(key)
    ensures HasApiKeyValue(SavedKey(key)) <==> |Trim(key.value)| > 10
    ensures |Trim(key.value)| == 10 ==> !HasApiKeyValue(SavedKey(key))
  {
    assert SavedKey(key) == Some(Trim(key.value));
  }

  /** A key that `isInjectedApiKey` recognises is one `hasApiKey` reports. */
  lemma InjectedKeyIsReported(stored: Option<string>)
    requires IsInjectedKeyValue(stored)
    ensures HasApiKeyValue(stored)
  {
  }

  /* ---------- recency ---------- */

  /** `hasRecentData` given the stored timestamp and the current time: false
      with no timestamp, otherwise whether less than an hour has passed. */
  function IsRecent(timestamp: Option<int>, now: int): (recent: bool)
    ensures recent ==> timestamp.Some? && timestamp.value > now - OneHourMs
    ensures timestamp.Some? && now - OneHourMs < timestamp.value ==> recent
  {
    timestamp.Some? && now - timestamp.value < OneHourMs
  }

  /** Data exactly one hour old, or two hours old, is not recent; data saved
      a millisecond less than an hour ago is. */
  lemma RecencyBoundary(saved: int)
    ensures !IsRecent(Some(saved), saved + OneHourMs)
    ensures !IsRecent(Some(saved), saved + 2 * OneHourMs)
    ensures IsRecent(Some(saved), saved + OneHourMs - 1)
  {
  }

  /* ---------- numbers ---------- */

  function Abs(x: real): real {
    if x < 0.0 then -x else x
  }

  /** `numbersEqual(a, b, tolerance)`: `a` lies strictly inside the open
      window of half-width `tolerance` around `b`. */
  function NumbersEqual(a: real, b: real, tolerance: real): (eq: bool)
    ensures eq <==> b - tolerance < a < b + tolerance
  {
    Abs(a - b) < tolerance
  }

  /** Tolerant equality is symmetric, and a difference of exactly the
      tolerance is not equal. */
  lemma NumbersEqualSymmetricStrict(a: real, b: real, tolerance: real)
    ensures NumbersEqual(a, b, tolerance) == NumbersEqual(b, a, tolerance)
    ensures !NumbersEqual(a, a + tolerance, tolerance) && !NumbersEqual(a + tolerance, a, tolerance)
  {
  }

  /** Smallest element, as `Math.min(...data)`. */
  function MinOf(data: seq<real>): (m: real)
    requires |data| > 0
    ensures m in data
    ensures forall x :: x in data ==> m <= x
  {
    if |data| == 1 then data[0]
    else
      var rest := MinOf(data[1..]);
      assert forall x :: x in data ==> x == data[0] || x in data[1..];
      if data[0] <= rest then data[0] else rest
  }

  /** Largest element, as `Math.max(...data)`. */
  function MaxOf(data: seq<real>): (m: real)
    requires |data| > 0
    ensures m in data
    ensures forall x :: x in data ==> x <= m
  {
    if |data| == 1 then data[0]
    else
      var rest := MaxOf(data[1..]);
      assert forall x :: x in data ==> x == data[0] || x in data[1..];
      if data[0] >= rest then data[0] else rest
  }

  /** `calculateBasicStats`: {0, 0, 0} for no data; otherwise the count, and a
      minimum and maximum that are members of the data bounding every element. */
  function CalculateBasicStats(data: seq<real>): (s: Stats)
    ensures data == [] ==> s == Stats(0.0, 0.0, 0)
    ensures data != [] ==>
              && s.count == |data|
              && s.min in data && s.max in data
              && forall x :: x in data ==> s.min <= x <= s.max
  {
    if data == [] then Stats(0.0, 0.0, 0)
    else Stats(MinOf(data), MaxOf(data), |data|)
  }

  /* ---------- random data ---------- */

  /** One value of `generateRandomData` in integer mode, from the draw `r` of
      `Math.random()`. */
  function DrawValue(r: real, min: real, max: real): real {
    (r * (max - min) + min).Floor as real
  }

  /** A draw in [0, 1) with integer bounds `min < max` yields an integer in [min, max). */
  lemma DrawValueInRange(r: real, min: real, max: real)
    requires 0.0 <= r < 1.0 && min < max && min.Floor as real == min
    ensures min <= DrawValue(r, min, max) < max
    ensures DrawValue(r, min, max).Floor as real == DrawValue(r, min, max)
  {
    var x := r * (max - min) + min;
    ScaledDrawBounds(r, min, max);
    assert min.Floor <= x.Floor;
  }

  /** The unrounded value lies in [min, max). */
  lemma ScaledDrawBounds(r: real, min: real, max: real)
    requires 0.0 <= r < 1.0 && min < max
    ensures min <= r * (max - min) + min < max
  {
    var range := max - min;
    var scaled := r * range;
    PositiveProduct(1.0 - r, range);
    assert (1.0 - r) * range == range - scaled;
    assert scaled < range;
    if r > 0.0 {
      PositiveProduct(r, range);
    }
    assert 0.0 <= scaled;
  }

  lemma PositiveProduct(a: real, b: real)
    requires 0.0 < a && 0.0 < b
    ensures 0.0 < a * b
  {
  }

  /** Draws in [0, 1). */
  predicate UnitDraws(draws: seq<real>) {
    forall i :: 0 <= i < |draws| ==> 0.0 <= draws[i] < 1.0
  }

  /** `generateRandomData({count, min, max, allowDecimals: false})` with the
      draws of `Math.random()` given in order: exactly `max(count, 0)` values,
      the i-th made from the i-th draw, and all integers in [min, max) when
      the bounds are integers with `min < max`. */
  method GenerateRandomData(count: int, min: real, max: real, draws: seq<real>) returns (data: seq<real>)
    requires |draws| >= count
    ensures |data| == if count > 0 then count else 0
    ensures forall i :: 0 <= i < |data| ==> data[i] == DrawValue(draws[i], min, max)
    ensures UnitDraws(draws) && min < max && min.Floor as real == min ==>
              forall i :: 0 <= i < |data| ==> min <= data[i] < max && data[i].Floor as real == data[i]
  {
    data := [];
    var i := 0;
    while i < count
      invariant 0 <= i <= |draws| && |data| == i
      invariant if count > 0 then i <= count else i == 0
      invariant forall k :: 0 <= k < i ==> data[k] == DrawValue(draws[k], min, max)
    {
      var value := DrawValue(draws[i], min, max);
      data := data + [value];
      i := i + 1;
    }
    if UnitDraws(draws) && min < max && min.Floor as real == min {
      forall k | 0 <= k < |data|
        ensures min <= data[k] < max && data[k].Floor as real == data[k]
      {
        DrawValueInRange(draws[k], min, max);
      }
    }
  }

  /* ---------- page path ---------- */

  /** `getCurrentExerciseId`: the path after its last `/`, with the first
      `.html` removed. The result never contains a `/`. */
  function GetCurrentExerciseId(path: string): (id: string)
    ensures '/' !in id
  {
    var filename := path[LastIndexOf(path, '/') + 1..];
    AfterLastIndexOf(path, '/');
    ReplaceFirstKeepsOut(filename, ".html", "", '/');
    ReplaceFirst(filename, ".html", "")
  }

  /** In `dir/file` with no `/` in `file`, the last `/` is the one after `dir`. */
  lemma LastSlashBeforeFile(dir: string, file: string)
    requires '/' !in file
    ensures LastIndexOf(dir + "/" + file, '/') == |dir|
    ensures (dir + "/" + file)[|dir| + 1..] == file
  {
    var prefix := dir + "/";
    var path := prefix + file;
    assert path == dir + "/" + file;
    assert path[|dir|] == '/' by {
      assert path[|dir|] == prefix[|dir|];
    }
    assert NoSlashAfter: forall j :: |dir| < j < |path| ==> path[j] != '/' by {
      forall j | |dir| < j < |path| ensures path[j] != '/' {
        var k := j - |prefix|;
        assert path[j] == file[k];
        assert file[k] in file;
      }
    }
    LastIndexOfIsUnique(path, '/', |dir|);
    assert path[|prefix|..] == file;
  }

  /** When `name` holds no `.html`, the first `.html` of `name.html` is its
      suffix: ".html" has no proper prefix that is also a suffix, so no
      occurrence can straddle the boundary. */
  lemma FirstHtmlIsSuffix(name: string)
    requires IndexOf(name, ".html") < 0
    ensures IndexOf(name + ".html", ".html") == |name|
  {
    var filename := name + ".html";
    assert OccursAt(filename, ".html", |name|);
    forall k | 0 <= k < |name|
      ensures !OccursAt(filename, ".html", k)
    {
      if k + 5 <= |name| {
        assert filename[k..k + 5] == name[k..k + 5];
        assert !OccursAt(name, ".html", k);
      } else {
        var d := |name| - k;
        assert filename[k..k + 5][d] == filename[|name|] == '.';
        assert ".html"[d] != '.';
      }
    }
  }

  /** The page `dir/name.html` has exercise id `name`, whatever the directory,
      for any file name holding neither `/` nor `.html`. */
  lemma ExerciseIdOfPage(dir: string, name: string)
    requires '/' !in name
    requires IndexOf(name, ".html") < 0
    ensures GetCurrentExerciseId(dir + "/" + name + ".html") == name
  {
    var filename := name + ".html";
    assert dir + "/" + name + ".html" == dir + "/" + filename;
    assert '/' !in filename by {
      assert forall i :: 0 <= i < |filename| ==> filename[i] == if i < |name| then name[i] else ".html"[i - |name|];
    }
    LastSlashBeforeFile(dir, filename);
    FirstHtmlIsSuffix(name);
    assert filename[..|name|] == name;
    assert filename[|name| + 5..] == [];
  }

  /* ---------- storage ---------- */

  /** The browser's storage as the core sees it: local storage as a key-value
      map (it holds the API key), and the three session-storage entries the
      core uses. `writable` is false when the browser refuses writes
      (`setItem` throws); the core then catches the error and stores nothing. */
  class Store {
    var local: map<string, string>
    var exerciseData: Option<seq<real>>            // 'matriu_exercise_data'
    var dataTimestamp: Option<int>                 // 'matriu_data_timestamp'
    var results: Option<map<string, StampedResult>> // 'matriu_exercise_results'
    const writable: bool

    constructor (writable: bool)
      ensures this.writable == writable
      ensures local == map[] && exerciseData == None && dataTimestamp == None && results == None
    {
      this.writable := writable;
      local := map[];
      exerciseData := None;
      dataTimestamp := None;
      results := None;
    }

    /** `getApiKey`. */
    function GetApiKey(): Option<string>
      reads this
    {
      if ApiKeySlot in local then Some(local[ApiKeySlot]) else None
    }

    /** `hasApiKey`. */
    function HasApiKey(): bool
      reads this
    {
      HasApiKeyValue(GetApiKey())
    }

    /** `isInjectedApiKey`. */
    function IsInjectedApiKey(): bool
      reads this
    {
      IsInjectedKeyValue(GetApiKey())
    }

    /** `saveApiKey`: refuses (false, nothing stored) a missing or short key;
        otherwise stores the trimmed key under its slot, leaving every other
        local key as it was. */
    method SaveApiKey(key: Option<string>) returns (saved: bool)
      modifies this`local
      ensures saved <==> ApiKeyAccepted(key) && writable
      ensures saved ==> local == old(local)[ApiKeySlot := Trim(key.value)] && GetApiKey() == SavedKey(key)
      ensures !saved ==> local == old(local)
    {
      if key.None? || key.value == "" || |Trim(key.value)| < MinSavedKeyLength {
        return false;
      }
      if !writable {
        return false;
      }
      local := local[ApiKeySlot := Trim(key.value)];
      saved := true;
    }

    /** `clearApiKey`: afterwards `getApiKey` is null; other local keys stay. */
    method ClearApiKey()
      modifies this`local
      ensures local == old(local) - {ApiKeySlot}
      ensures GetApiKey() == None && !HasApiKey() && !IsInjectedApiKey()
    {
      local := local - {ApiKeySlot};
    }

    /** `saveExerciseData`: stores the data with the current time. */
    method SaveExerciseData(data: seq<real>, now: int)
      modifies this`exerciseData, this`dataTimestamp
      ensures writable ==> exerciseData == Some(data) && dataTimestamp == Some(now)
      ensures writable ==> forall t :: now <= t < now + OneHourMs ==> HasRecentData(t)
      ensures !writable ==> exerciseData == old(exerciseData) && dataTimestamp == old(dataTimestamp)
    {
      if writable {
        exerciseData := Some(data);
        dataTimestamp := Some(now);
      }
    }

    /** `getExerciseData`. */
    function GetExerciseData(): Option<seq<real>>
      reads this
    {
      exerciseData
    }

    /** `hasRecentData`, with the current time passed in. */
    function HasRecentData(now: int): (recent: bool)
      reads this
      ensures recent ==> dataTimestamp.Some?
      ensures recent <==> dataTimestamp.Some? && now - OneHourMs < dataTimestamp.value
    {
      IsRecent(dataTimestamp, now)
    }

    /** The results mapping as read back: an absent entry reads as `{}`. */
    function AllResults(): map<string, StampedResult>
      reads this
    {
      results.GetOr(map[])
    }

    /** `getExerciseResults`: the entry saved under `exerciseId`, or null. */
    function GetExerciseResults(exerciseId: string): Option<StampedResult>
      reads this
    {
      if exerciseId in AllResults() then Some(AllResults()[exerciseId]) else None
    }

    /** `clearExerciseData`: removes data, timestamp and results, so no data is
        recent and no exercise has results. */
    method ClearExerciseData()
      modifies this`exerciseData, this`dataTimestamp, this`results
      ensures exerciseData == None && dataTimestamp == None && results == None
      ensures forall now :: !HasRecentData(now)
      ensures forall id :: GetExerciseResults(id) == None
    {
      exerciseData := None;
      dataTimestamp := None;
      results := None;
    }

    /** `saveExerciseResults`: a read-modify-write of the results mapping that
        sets entry `exerciseId` to the fields stamped with `now` and keeps
        every other entry. */
    method SaveExerciseResults(exerciseId: string, fields: map<string, string>, now: int)
      modifies this`results
      ensures writable ==> AllResults() == old(AllResults())[exerciseId := StampedResult(fields - {TimestampField}, now)]
      ensures writable ==> GetExerciseResults(exerciseId) == Some(StampedResult(fields - {TimestampField}, now))
      ensures !writable ==> results == old(results)
      ensures forall id :: id != exerciseId ==> GetExerciseResults(id) == old(GetExerciseResults(id))
    {
      var all := AllResults();
      all := all[exerciseId := StampedResult(fields - {TimestampField}, now)];
      if writable {
        results := Some(all);
      }
    }
  }
}

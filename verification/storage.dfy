/** The client-side persistence of the lottery (lib/storage.ts).

    Browser local storage is modelled as a record with one slot per storage
    key: "lottery_history", "app_settings" and "favorite_numbers". The keys are
    distinct, so each operation touches one slot and leaves the other two as
    they are. A slot is either absent (no item, or the empty string, which the
    source treats the same), corrupt (an item `JSON.parse` rejects), or holds a
    parsed value. Every operation is a pure function from store to store; the
    clock and the locale date are parameters. */
module Storage {
  import Text
  import Frequency

  datatype Option<T> = None | Some(value: T)

  /** One storage key's item, as the module sees it once parsed. */
  datatype Slot<T> = Absent | Corrupt | Stored(value: T)

  datatype Store = Store(
    history: Slot<seq<LotteryResult>>,
    settings: Slot<SettingsPatch>,
    favorites: Slot<seq<seq<int>>>)

  /** A store in which none of the three keys has an item. */
  const EmptyStore := Store(Absent, Absent, Absent)

  // ---------------------------------------------------------------------------
  // Lottery history
  // ---------------------------------------------------------------------------

  datatype LotteryResult = LotteryResult(id: string, numbers: seq<int>, timestamp: int, date: string)

  /** The values `addResult` reads from its environment: two reads of
      `Date.now()` (one for the id, one for the timestamp) and the date
      formatted for the "vi-VN" locale. A clock set before 1970 reads
      negative. */
  datatype Clock = Clock(idMillis: int, timestamp: int, date: string)

  /** The history keeps at most this many results. */
  const HistoryCap := 50

  /** `getHistory`: the stored results, most recent first; never fails. */
  function GetHistory(s: Store): (h: seq<LotteryResult>)
    ensures s.history.Stored? ==> h == s.history.value
    ensures !s.history.Stored? ==> h == []
  {
    match s.history
    case Stored(h) => h
    case _ => []
  }

  /** The result `addResult` builds from its argument and the clock. */
  function NewResult(numbers: seq<int>, clock: Clock): (r: LotteryResult)
    ensures r.numbers == numbers
    ensures r.timestamp == clock.timestamp && r.date == clock.date
    ensures Text.IsNumeral(r.id) && Text.ParseNumber(r.id) == clock.idMillis
    ensures clock.idMillis >= 0 ==> forall i :: 0 <= i < |r.id| ==> Text.IsDigitChar(r.id[i])
  {
    Text.NumberToStringRoundTrip(clock.idMillis);
    LotteryResult(Text.NumberToString(clock.idMillis), numbers, clock.timestamp, clock.date)
  }

  /** `addResult`: puts the new result in front of the current history and
      keeps the first 50. Only the history slot changes. */
  function AddResult(s: Store, numbers: seq<int>, clock: Clock): (r: Store)
    ensures r.settings == s.settings && r.favorites == s.favorites
    ensures r.history.Stored?
    ensures var old_ := GetHistory(s); var h := GetHistory(r);
      && |h| == (if |old_| + 1 < HistoryCap then |old_| + 1 else HistoryCap)
      && h[0] == NewResult(numbers, clock)
      && h[0].numbers == numbers
      && (forall i :: 1 <= i < |h| ==> h[i] == old_[i - 1])
    ensures !s.history.Stored? ==> GetHistory(r) == [NewResult(numbers, clock)]
  {
    var h := [NewResult(numbers, clock)] + GetHistory(s);
    s.(history := Stored(if |h| > HistoryCap then h[..HistoryCap] else h))
  }

  /** `clearHistory`: removes the history item. */
  function ClearHistory(s: Store): (r: Store)
    ensures GetHistory(r) == []
    ensures r.settings == s.settings && r.favorites == s.favorites
  {
    s.(history := Absent)
  }

  /** The drawn numbers of a history, result by result. */
  function Draws(h: seq<LotteryResult>): (d: seq<seq<int>>)
    ensures |d| == |h|
    ensures forall i :: 0 <= i < |h| ==> d[i] == h[i].numbers
  {
    seq(|h|, i requires 0 <= i < |h| => h[i].numbers)
  }

  function Reverse<T>(s: seq<T>): (r: seq<T>)
    ensures |r| == |s|
    ensures forall i :: 0 <= i < |s| ==> r[i] == s[|s| - 1 - i]
  {
    if |s| == 0 then [] else Reverse(s[1..]) + [s[0]]
  }

  function Take<T>(s: seq<T>, n: nat): seq<T> {
    if |s| <= n then s else s[..n]
  }

  /** Calls `addResult` once per entry of `draws`, in order, with its clock. */
  function AddResults(s: Store, draws: seq<seq<int>>, clocks: seq<Clock>): Store
    requires |clocks| == |draws|
    decreases |draws|
  {
    if |draws| == 0 then s
    else AddResults(AddResult(s, draws[0], clocks[0]), draws[1..], clocks[1..])
  }

  /** The history is a window on the draws: after any number of `addResult`
      calls it holds the 50 most recent draws, newest first, followed by as
      much of the earlier history as fits. (With no call at all, a stored
      history longer than 50 stays as it is.) */
  lemma {:induction false} AddResultsKeepsNewest(s: Store, draws: seq<seq<int>>, clocks: seq<Clock>)
    requires |clocks| == |draws|
    requires |draws| > 0 || |GetHistory(s)| <= HistoryCap
    ensures Draws(GetHistory(AddResults(s, draws, clocks)))
         == Take(Reverse(draws) + Draws(GetHistory(s)), HistoryCap)
    decreases |draws|
  {
    if |draws| > 0 {
      var s1 := AddResult(s, draws[0], clocks[0]);
      AddResultsKeepsNewest(s1, draws[1..], clocks[1..]);
      AddResultDraws(s, draws[0], clocks[0]);
      WindowStep(draws, Draws(GetHistory(s)));
    }
  }

  /** Prepending the first draw, then the reversed remaining draws, is
      prepending all of them reversed; the cut in between is harmless. */
  lemma WindowStep<T>(draws: seq<T>, old_: seq<T>)
    requires |draws| > 0
    ensures Take(Reverse(draws[1..]) + Take([draws[0]] + old_, HistoryCap), HistoryCap)
         == Take(Reverse(draws) + old_, HistoryCap)
  {
    var a := Reverse(draws[1..]);
    assert Reverse(draws) == a + [draws[0]];
    TakeOfTake(a, [draws[0]] + old_, HistoryCap);
    ConcatAssoc(a, [draws[0]], old_);
  }

  lemma ConcatAssoc<T>(a: seq<T>, b: seq<T>, c: seq<T>)
    ensures a + (b + c) == (a + b) + c
  {
  }

  /** One `addResult`, seen through the drawn numbers. */
  lemma AddResultDraws(s: Store, numbers: seq<int>, clock: Clock)
    ensures Draws(GetHistory(AddResult(s, numbers, clock)))
         == Take([numbers] + Draws(GetHistory(s)), HistoryCap)
  {
    var d := Draws(GetHistory(AddResult(s, numbers, clock)));
    var t := Take([numbers] + Draws(GetHistory(s)), HistoryCap);
    assert |d| == |t|;
    forall i | 0 <= i < |d|
      ensures d[i] == t[i]
    {
      if i > 0 {
        assert d[i] == GetHistory(s)[i - 1].numbers;
      }
    }
  }

  /** Truncating the tail before truncating the whole changes nothing. */
  lemma TakeOfTake<T>(a: seq<T>, b: seq<T>, n: nat)
    ensures Take(a + Take(b, n), n) == Take(a + b, n)
  {
    var l := a + Take(b, n);
    var r := a + b;
    assert |Take(l, n)| == |Take(r, n)|;
    forall i | 0 <= i < |Take(l, n)|
      ensures Take(l, n)[i] == Take(r, n)[i]
    {
      if i >= |a| {
        assert l[i] == b[i - |a|];
      }
    }
  }

  // ---------------------------------------------------------------------------
  // Statistics
  // ---------------------------------------------------------------------------

  datatype Stats = Stats(
    totalGames: nat,
    averageSum: int,
    mostFrequentNumbers: seq<int>,
    recentNumbers: seq<seq<int>>)

  function Sum(xs: seq<int>): int {
    if |xs| == 0 then 0 else Sum(xs[..|xs| - 1]) + xs[|xs| - 1]
  }

  /** The sum of every draw's sum. */
  function Total(h: seq<LotteryResult>): int {
    if |h| == 0 then 0 else Total(h[..|h| - 1]) + Sum(h[|h| - 1].numbers)
  }

  /** Every number of every draw, in the order the counting loop visits them. */
  function Flat(h: seq<LotteryResult>): seq<int> {
    if |h| == 0 then [] else h[0].numbers + Flat(h[1..])
  }

  /** `Math.round(total / n)`: the nearest integer, halves rounded up. */
  function RoundedAverage(total: int, n: nat): (r: int)
    requires n > 0
    ensures 2 * n * r - n <= 2 * total < 2 * n * r + n
  {
    var q := (2 * total + n) / (2 * n);
    var m := (2 * total + n) % (2 * n);
    assert 2 * total + n == 2 * n * q + m;
    q
  }

  /** `getStats` over a given history. */
  function StatsOf(h: seq<LotteryResult>): (r: Stats)
    ensures r.totalGames == |h|
    ensures |h| == 0 ==> r == Stats(0, 0, [], [])
    ensures |h| > 0 ==> 2 * |h| * r.averageSum - |h| <= 2 * Total(h) < 2 * |h| * r.averageSum + |h|
    ensures |r.recentNumbers| == (if |h| < 5 then |h| else 5)
    ensures forall i :: 0 <= i < |r.recentNumbers| ==> r.recentNumbers[i] == h[i].numbers
  {
    if |h| == 0 then Stats(0, 0, [], [])
    else
      Stats(|h|, RoundedAverage(Total(h), |h|), Frequency.MostFrequent(Flat(h)), Draws(Take(h, 5)))
  }

  /** `getStats`: statistics of the stored history; no usable history item
      means no games. */
  function GetStats(s: Store): (r: Stats)
    ensures r.totalGames == |GetHistory(s)|
    ensures !s.history.Stored? ==> r == Stats(0, 0, [], [])
  {
    StatsOf(GetHistory(s))
  }

  /** A cleared history reports no games at all. */
  lemma ClearedStats(s: Store)
    ensures GetStats(ClearHistory(s)) == Stats(0, 0, [], [])
  {
  }

  /** The most frequent numbers of a non-empty history are at most five
      distinct drawn values, by non-increasing frequency, none less frequent
      than a value left out. */
  lemma StatsMostFrequent(h: seq<LotteryResult>)
    requires |h| > 0
    ensures var r := StatsOf(h).mostFrequentNumbers; var xs := Flat(h);
      && |r| <= 5
      && Frequency.Distinct(r)
      && (forall i :: 0 <= i < |r| ==> r[i] in xs)
      && (forall i, j :: 0 <= i < j < |r| ==> Frequency.Count(xs, r[i]) >= Frequency.Count(xs, r[j]))
      && (forall v, i :: v in xs && v !in r && 0 <= i < |r| ==>
            Frequency.Count(xs, v) <= Frequency.Count(xs, r[i]))
      && (|r| < 5 ==> forall v :: v in xs ==> v in r)
  {
    var xs := Flat(h);
    assert StatsOf(h).mostFrequentNumbers == Frequency.MostFrequent(xs);
    Frequency.MostFrequentRanked(xs);
    Frequency.MostFrequentIsTop(xs);
    Frequency.MostFrequentComplete(xs);
  }

  /** Equally frequent digits are listed in ascending order, and when they
      cross the cut after five, the smallest of them are the ones listed. */
  lemma StatsTiesAscending(h: seq<LotteryResult>)
    requires |h| > 0
    ensures var r := StatsOf(h).mostFrequentNumbers; var xs := Flat(h);
      && (forall i, j ::
            (0 <= i < j < |r| && Frequency.Count(xs, r[i]) == Frequency.Count(xs, r[j])
             && 0 <= r[i] <= 9 && 0 <= r[j] <= 9) ==> r[i] < r[j])
      && (forall v, i ::
            (v in xs && v !in r && 0 <= i < |r| && Frequency.Count(xs, v) == Frequency.Count(xs, r[i])
             && 0 <= v <= 9) ==> 0 <= r[i] < v)
  {
    StatsListsMostFrequent(h);
    Frequency.MostFrequentDigitTies(Flat(h));
  }

  lemma StatsListsMostFrequent(h: seq<LotteryResult>)
    requires |h| > 0
    ensures StatsOf(h).mostFrequentNumbers == Frequency.MostFrequent(Flat(h))
  {
  }

  /** Each five-digit draw sums to between 0 and 45. */
  lemma {:induction false} DigitTotalBounds(h: seq<LotteryResult>)
    requires forall i :: 0 <= i < |h| ==> Text.IsDraw(h[i].numbers)
    ensures 0 <= Total(h) <= 45 * |h|
  {
    if |h| > 0 {
      DigitTotalBounds(h[..|h| - 1]);
      DigitSumBounds(h[|h| - 1].numbers);
    }
  }

  lemma {:induction false} DigitSumBounds(xs: seq<int>)
    requires Text.AllDigits(xs)
    ensures 0 <= Sum(xs) <= 9 * |xs|
  {
    if |xs| > 0 {
      DigitSumBounds(xs[..|xs| - 1]);
    }
  }

  /** When every stored draw has five digits, the average sum lies in 0 .. 45. */
  lemma AverageOfDigitDraws(h: seq<LotteryResult>)
    requires forall i :: 0 <= i < |h| ==> Text.IsDraw(h[i].numbers)
    ensures 0 <= StatsOf(h).averageSum <= 45
  {
    if |h| > 0 {
      DigitTotalBounds(h);
      RoundedWithin(Total(h), |h|, StatsOf(h).averageSum, 45);
    }
  }

  /** A rounded average of values between 0 and `hi` is itself between 0 and `hi`. */
  lemma RoundedWithin(total: int, n: nat, a: int, hi: nat)
    requires n > 0 && 0 <= total <= hi * n
    requires 2 * n * a - n <= 2 * total < 2 * n * a + n
    ensures 0 <= a <= hi
  {
    assert n * (2 * a + 1) > 0;
    PositiveFactor(n, 2 * a + 1);
    assert n * (2 * a) < n * (2 * hi + 2);
    LessFactor(n, 2 * a, 2 * hi + 2);
  }

  lemma PositiveFactor(n: nat, x: int)
    requires n > 0 && n * x > 0
    ensures x > 0
  {
  }

  lemma LessFactor(n: nat, x: int, y: int)
    requires n > 0 && n * x < n * y
    ensures x < y
  {
  }

  // ---------------------------------------------------------------------------
  // Settings
  // ---------------------------------------------------------------------------

  datatype Theme = Light | Dark | Auto

  datatype Settings = Settings(
    soundEnabled: bool,
    theme: Theme,
    autoSpin: bool,
    autoSpinInterval: int,
    favoriteNumbers: seq<seq<int>>,
    maxRange: int,
    customSoundUrl: Option<string>)

  /** A settings object in which any key may be missing: both a stored item
      and the argument of `updateSettings` (`Partial<AppSettings>`). */
  datatype SettingsPatch = SettingsPatch(
    soundEnabled: Option<bool>,
    theme: Option<Theme>,
    autoSpin: Option<bool>,
    autoSpinInterval: Option<int>,
    favoriteNumbers: Option<seq<seq<int>>>,
    maxRange: Option<int>,
    customSoundUrl: Option<string>)

  const DefaultSettings := Settings(true, Light, false, 30, [], 99999, None)

  const EmptyPatch := SettingsPatch(None, None, None, None, None, None, None)

  function Pick<T>(o: Option<T>, otherwise: T): T {
    if o.Some? then o.value else otherwise
  }

  /** `{ ...base, ...patch }`: every key the patch has overrides the base. An
      empty patch keeps the base. */
  function Merge(base: Settings, p: SettingsPatch): (r: Settings)
    ensures p == EmptyPatch ==> r == base
  {
    Settings(
      Pick(p.soundEnabled, base.soundEnabled),
      Pick(p.theme, base.theme),
      Pick(p.autoSpin, base.autoSpin),
      Pick(p.autoSpinInterval, base.autoSpinInterval),
      Pick(p.favoriteNumbers, base.favoriteNumbers),
      Pick(p.maxRange, base.maxRange),
      if p.customSoundUrl.Some? then p.customSoundUrl else base.customSoundUrl)
  }

  /** The object `JSON.stringify` writes for a full settings record; an
      unset custom sound URL is simply not written. Read back over the
      defaults, it gives the record again. */
  function AsPatch(x: Settings): (p: SettingsPatch)
    ensures p != EmptyPatch
    ensures Merge(DefaultSettings, p) == x
  {
    SettingsPatch(Some(x.soundEnabled), Some(x.theme), Some(x.autoSpin), Some(x.autoSpinInterval),
      Some(x.favoriteNumbers), Some(x.maxRange), x.customSoundUrl)
  }

  /** `getSettings`: defaults when nothing usable is stored; otherwise every
      stored key overrides its default and every missing key keeps it. A
      record written whole reads back whole. */
  function GetSettings(s: Store): (r: Settings)
    ensures !s.settings.Stored? ==> r == DefaultSettings
    ensures s.settings == Stored(EmptyPatch) ==> r == DefaultSettings
    ensures forall x :: s.settings == Stored(AsPatch(x)) ==> r == x
    ensures s.settings.Stored? ==> r == Merge(DefaultSettings, s.settings.value)
  {
    match s.settings
    case Stored(p) => Merge(DefaultSettings, p)
    case _ => DefaultSettings
  }

  /** `updateSettings`: merges the patch over the current settings and
      stores the whole record. Only the settings slot changes. */
  function UpdateSettings(s: Store, p: SettingsPatch): (r: Store)
    ensures r.history == s.history && r.favorites == s.favorites
    ensures r.settings.Stored?
  {
    s.(settings := Stored(AsPatch(Merge(GetSettings(s), p))))
  }

  /** `resetSettings`: removes the settings item. */
  function ResetSettings(s: Store): (r: Store)
    ensures GetSettings(r) == DefaultSettings
    ensures r.history == s.history && r.favorites == s.favorites
  {
    s.(settings := Absent)
  }

  /** Reading back after an update: keys in the patch take the patch's value,
      every other key keeps its current value. */
  lemma UpdateThenGet(s: Store, p: SettingsPatch)
    ensures var a := GetSettings(s); var b := GetSettings(UpdateSettings(s, p));
      && b.soundEnabled == (if p.soundEnabled.Some? then p.soundEnabled.value else a.soundEnabled)
      && b.theme == (if p.theme.Some? then p.theme.value else a.theme)
      && b.autoSpin == (if p.autoSpin.Some? then p.autoSpin.value else a.autoSpin)
      && b.autoSpinInterval == (if p.autoSpinInterval.Some? then p.autoSpinInterval.value else a.autoSpinInterval)
      && b.favoriteNumbers == (if p.favoriteNumbers.Some? then p.favoriteNumbers.value else a.favoriteNumbers)
      && b.maxRange == (if p.maxRange.Some? then p.maxRange.value else a.maxRange)
      && b.customSoundUrl == (if p.customSoundUrl.Some? then p.customSoundUrl else a.customSoundUrl)
  {
  }

  /** Applying the same patch twice is the same as applying it once. */
  lemma UpdateIdempotent(s: Store, p: SettingsPatch)
    ensures UpdateSettings(UpdateSettings(s, p), p) == UpdateSettings(s, p)
  {
    var once := UpdateSettings(s, p);
    assert GetSettings(once) == Merge(GetSettings(s), p);
  }

  /** An update with an empty patch changes no setting. */
  lemma EmptyUpdateKeepsSettings(s: Store)
    ensures GetSettings(UpdateSettings(s, EmptyPatch)) == GetSettings(s)
  {
  }

  // ---------------------------------------------------------------------------
  // Favourites
  // ---------------------------------------------------------------------------

  /** `getFavorites`: the stored number sets; never fails. */
  function GetFavorites(s: Store): (f: seq<seq<int>>)
    ensures s.favorites.Stored? ==> f == s.favorites.value
    ensures !s.favorites.Stored? ==> f == []
  {
    match s.favorites
    case Stored(f) => f
    case _ => []
  }

  /** Some favourite renders to the same joined string as `numbers`. */
  predicate HasSameJoin(favorites: seq<seq<int>>, numbers: seq<int>) {
    exists i :: 0 <= i < |favorites| && Text.Join(favorites[i]) == Text.Join(numbers)
  }

  /** `addFavorite`: appends `numbers` unless a favourite with the same joined
      string exists, in which case nothing is written. */
  function AddFavorite(s: Store, numbers: seq<int>): (r: Store)
    ensures r.history == s.history && r.settings == s.settings
    ensures HasSameJoin(GetFavorites(s), numbers) ==> r == s
    ensures !HasSameJoin(GetFavorites(s), numbers) ==>
      r.favorites == Stored(GetFavorites(s) + [numbers])
    ensures |GetFavorites(s)| <= |GetFavorites(r)| <= |GetFavorites(s)| + 1
  {
    var favorites := GetFavorites(s);
    if HasSameJoin(favorites, numbers) then s
    else s.(favorites := Stored(favorites + [numbers]))
  }

  /** Adding the same favourite twice is the same as adding it once. */
  lemma AddFavoriteIdempotent(s: Store, numbers: seq<int>)
    ensures AddFavorite(AddFavorite(s, numbers), numbers) == AddFavorite(s, numbers)
  {
    var once := AddFavorite(s, numbers);
    var f := GetFavorites(once);
    if !HasSameJoin(GetFavorites(s), numbers) {
      assert f[|f| - 1] == numbers;
      assert HasSameJoin(f, numbers);
    }
  }

  /** For draws of single digits the string key is exact: a draw is added
      exactly when it is not already a favourite. */
  lemma AddDigitFavorite(s: Store, numbers: seq<int>)
    requires Text.AllDigits(numbers)
    requires forall i :: 0 <= i < |GetFavorites(s)| ==> Text.AllDigits(GetFavorites(s)[i])
    ensures numbers in GetFavorites(s) ==> AddFavorite(s, numbers) == s
    ensures numbers !in GetFavorites(s) ==>
      GetFavorites(AddFavorite(s, numbers)) == GetFavorites(s) + [numbers]
  {
    var f := GetFavorites(s);
    if numbers !in f {
      if HasSameJoin(f, numbers) {
        var i :| 0 <= i < |f| && Text.Join(f[i]) == Text.Join(numbers);
        Text.JoinInjectiveOnDigits(f[i], numbers);
        assert false;
      }
    }
  }

  /** With multi-digit numbers the string key conflates different sets:
      once [1, 23] is a favourite, [12, 3] cannot be added. */
  lemma AddFavoriteCollision()
    ensures var s := AddFavorite(EmptyStore, [1, 23]);
      AddFavorite(s, [12, 3]) == s && GetFavorites(s) == [[1, 23]]
  {
    Text.JoinCollides();
    var s := AddFavorite(EmptyStore, [1, 23]);
    assert GetFavorites(s)[0] == [1, 23];
    assert HasSameJoin(GetFavorites(s), [12, 3]);
  }

  /** The position `Array.prototype.splice(index, 1)` starts at: a negative
      index counts from the end, and both ends are clamped. */
  function SpliceStart(len: nat, index: int): (k: nat)
    ensures k <= len
    ensures 0 <= index ==> k == (if index < len then index else len)
    ensures index < 0 ==> k == (if len + index > 0 then len + index else 0)
  {
    if index < 0 then (if len + index > 0 then len + index else 0)
    else if index < len then index else len
  }

  /** `favorites.splice(index, 1)`: removes the element at the start
      position, if there is one. */
  function SpliceOne<T>(s: seq<T>, index: int): (r: seq<T>)
    ensures var k := SpliceStart(|s|, index);
      k < |s| ==> (
        && |r| == |s| - 1
        && (forall i :: 0 <= i < k ==> r[i] == s[i])
        && (forall i :: k <= i < |r| ==> r[i] == s[i + 1]))
    ensures SpliceStart(|s|, index) == |s| ==> r == s
  {
    var k := SpliceStart(|s|, index);
    if k < |s| then s[..k] + s[k + 1..] else s
  }

  /** `removeFavorite`: splices the list and always writes it back. */
  function RemoveFavorite(s: Store, index: int): (r: Store)
    ensures r.history == s.history && r.settings == s.settings
    ensures r.favorites.Stored?
  {
    s.(favorites := Stored(SpliceOne(GetFavorites(s), index)))
  }

  /** What `removeFavorite(index)` does to the list: an index within bounds
      removes exactly that favourite and keeps the others in order; an index
      at or past the end changes nothing; a negative index counts from the
      end, and one reaching before the start removes the first favourite. */
  lemma RemoveFavoriteEffect(s: Store, index: int)
    ensures var f := GetFavorites(s); var g := GetFavorites(RemoveFavorite(s, index));
      && (0 <= index < |f| ==> g == f[..index] + f[index + 1..])
      && (index >= |f| ==> g == f)
      && (-|f| <= index < 0 ==> g == f[..|f| + index] + f[|f| + index + 1..])
      && (index < -|f| && |f| > 0 ==> g == f[1..])
      && |g| == (if |f| > 0 && index < |f| then |f| - 1 else |f|)
  {
    var f := GetFavorites(s);
    var g := GetFavorites(RemoveFavorite(s, index));
    var k := SpliceStart(|f|, index);
    if k < |f| {
      assert g == f[..k] + f[k + 1..];
    }
  }
}

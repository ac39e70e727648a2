/**
 * The figures the profile page derives from the user's scans and EcoDev
 * progress: CO2 total, average score, score colours, achievement flags, and
 * the two small input rules for the avatar upload and the username.
 */
module Profile {
  import opened Wrappers
  import opened JsText
  import opened JsNumber
  import opened EcoDevProgress
  import opened EcoDevSchool
  import ClimaScan

  /** One stored scan: its URL and the nullable per-view CO2 and score columns. */
  datatype ScanRecord = ScanRecord(url: string, co2PerView: Option<real>, score: Option<real>)

  // ---------------------------------------------------------------------------
  // Totals and the average score

  /** The sum of the per-view CO2 figures, a missing figure counting as 0. */
  function TotalCo2(scans: seq<ScanRecord>): (total: real)
    ensures (forall i :: 0 <= i < |scans| ==> scans[i].co2PerView.GetOr(0.0) >= 0.0) ==> total >= 0.0
  {
    if scans == [] then 0.0
    else TotalCo2(scans[..|scans| - 1]) + scans[|scans| - 1].co2PerView.GetOr(0.0)
  }

  /** The total over two lists of scans is the sum of their totals. */
  lemma {:induction false} TotalCo2Append(a: seq<ScanRecord>, b: seq<ScanRecord>)
    ensures TotalCo2(a + b) == TotalCo2(a) + TotalCo2(b)
    decreases |b|
  {
    if b == [] {
      assert a + b == a;
    } else {
      var init := b[..|b| - 1];
      TotalCo2Append(a, init);
      assert (a + b)[..|a + b| - 1] == a + init;
    }
  }

  /** A scan without a CO2 figure leaves the total as it was, wherever it stands in the list. */
  lemma {:induction false} TotalCo2SkipsMissing(a: seq<ScanRecord>, r: ScanRecord, b: seq<ScanRecord>)
    requires r.co2PerView.None?
    ensures TotalCo2(a + [r] + b) == TotalCo2(a + b)
  {
    TotalCo2Append(a + [r], b);
    TotalCo2Append(a, [r]);
    TotalCo2Append(a, b);
    assert [r][..0] == [];
  }

  /** The sum of the scores, a missing score counting as 0. */
  function ScoreSum(scans: seq<ScanRecord>): real {
    if scans == [] then 0.0
    else ScoreSum(scans[..|scans| - 1]) + scans[|scans| - 1].score.GetOr(0.0)
  }

  /** A lower bound on every score (a missing one read as 0) bounds the sum from below. */
  lemma {:induction false} ScoreSumAtLeast(scans: seq<ScanRecord>, lo: real)
    requires forall i :: 0 <= i < |scans| ==> scans[i].score.GetOr(0.0) >= lo
    ensures ScoreSum(scans) >= lo * |scans| as real
  {
    if scans != [] {
      ScoreSumAtLeast(scans[..|scans| - 1], lo);
    }
  }

  /** An upper bound on every score (a missing one read as 0) bounds the sum from above. */
  lemma {:induction false} ScoreSumAtMost(scans: seq<ScanRecord>, hi: real)
    requires forall i :: 0 <= i < |scans| ==> scans[i].score.GetOr(0.0) <= hi
    ensures ScoreSum(scans) <= hi * |scans| as real
  {
    if scans != [] {
      ScoreSumAtMost(scans[..|scans| - 1], hi);
    }
  }

  /** The average score shown on the page, rounded to hundredths; none (a dash) without scans. */
  function AvgScore(scans: seq<ScanRecord>): (avg: Option<real>)
    ensures avg.None? <==> scans == []
    ensures avg.Some? ==>
      var mean := ScoreSum(scans) / |scans| as real;
      IsHundredths(avg.value) && mean - 0.005 <= avg.value <= mean + 0.005
  {
    if |scans| > 0 then Some(Round2(ScoreSum(scans) / |scans| as real)) else None
  }

  /**
   * The "Green Champion" test: there are scans and the displayed average is at
   * least 0.7, which holds exactly when the unrounded mean is at least 0.695.
   */
  function GreenChampion(scans: seq<ScanRecord>): (champion: bool)
    ensures champion <==> |scans| > 0 && ScoreSum(scans) >= 0.695 * |scans| as real
  {
    if |scans| > 0 then
      var n := |scans| as real;
      RoundsToSeventy(ScoreSum(scans) / n);
      QuotientAtLeast(ScoreSum(scans), n, 0.695);
      AvgScore(scans).value >= 0.7
    else
      false
  }

  /** Rounded to hundredths, a value reaches 0.70 exactly when it is at least 0.695. */
  lemma {:induction false} RoundsToSeventy(x: real)
    ensures Round2(x) >= 0.7 <==> x >= 0.695
  {
    if x >= 0.695 {
      Round2Monotone(0.695, x);
      assert NearestHundredths(0.695) == 70;
    }
  }

  /** Dividing by a positive count keeps a lower bound exactly when the total meets it scaled. */
  lemma {:induction false} QuotientAtLeast(x: real, n: real, c: real)
    requires n > 0.0
    ensures x / n >= c <==> x >= c * n
  {
    var q := x / n;
    assert q * n == x;
    if q >= c {
      assert (q - c) * n >= 0.0;
    } else {
      assert (c - q) * n > 0.0;
    }
  }

  /** Scans that all score at least 0.7 earn Green Champion; scans that all score at most 0.69 do not. */
  lemma {:induction false} ChampionByScores(scans: seq<ScanRecord>)
    requires |scans| > 0
    ensures (forall i :: 0 <= i < |scans| ==> scans[i].score.GetOr(0.0) >= 0.7) ==> GreenChampion(scans)
    ensures (forall i :: 0 <= i < |scans| ==> scans[i].score.GetOr(0.0) <= 0.69) ==> !GreenChampion(scans)
  {
    if forall i :: 0 <= i < |scans| ==> scans[i].score.GetOr(0.0) >= 0.7 {
      ScoreSumAtLeast(scans, 0.7);
    }
    if forall i :: 0 <= i < |scans| ==> scans[i].score.GetOr(0.0) <= 0.69 {
      ScoreSumAtMost(scans, 0.69);
    }
  }

  // ---------------------------------------------------------------------------
  // Score colours

  /** The colour class of a score: muted, success, warning or danger. */
  datatype Tone = Muted | Success | Warning | Danger

  /** Null and 0 are muted (the falsy test); then at least 0.7, at least 0.4, anything lower. */
  function ScoreColor(score: Option<real>): (tone: Tone)
    ensures tone == Muted <==> score.None? || score.value == 0.0
    ensures tone == Success <==> score.Some? && score.value != 0.0 && score.value >= 0.7
    ensures tone == Warning <==> score.Some? && 0.4 <= score.value < 0.7
    ensures tone == Danger <==> score.Some? && score.value != 0.0 && score.value < 0.4
  {
    if score.None? || score.value == 0.0 then Muted
    else if score.value >= 0.7 then Success
    else if score.value >= 0.4 then Warning
    else Danger
  }

  /** Danger, warning, success from worst to best. */
  function Rank(t: Tone): nat {
    match t
    case Danger => 0
    case Warning => 1
    case Success => 2
    case Muted => 0
  }

  /** Between two present, non-zero scores the higher one never gets a worse colour; a negative score is danger. */
  lemma {:induction false} ColorMonotone(s1: real, s2: real)
    requires s1 != 0.0 && s2 != 0.0 && s1 <= s2
    ensures ScoreColor(Some(s1)) != Muted && ScoreColor(Some(s2)) != Muted
    ensures Rank(ScoreColor(Some(s1))) <= Rank(ScoreColor(Some(s2)))
    ensures s1 < 0.0 ==> ScoreColor(Some(s1)) == Danger
  {
  }

  /** Every score the scanner produces gets a real colour, and success matches the Green Champion bar. */
  lemma {:induction false} ScannerScoresColoured(c: real)
    ensures ScoreColor(Some(ClimaScan.SustainabilityScore(c))) != Muted
    ensures ScoreColor(Some(ClimaScan.SustainabilityScore(c))) == Success <==> ClimaScan.SustainabilityScore(c) >= 0.7
  {
    ClimaScan.ScoreBounds(c);
  }

  // ---------------------------------------------------------------------------
  // Distinct URLs

  /** `new Set(scans.map(s => s.url))`: the URLs scanned at least once. */
  function DistinctUrls(scans: seq<ScanRecord>): (urls: set<string>)
    ensures forall u :: u in urls <==> exists i :: 0 <= i < |scans| && scans[i].url == u
    ensures |urls| <= |scans|
  {
    if scans == [] then {}
    else
      var init := scans[..|scans| - 1];
      var rest := DistinctUrls(init);
      assert forall i :: 0 <= i < |init| ==> init[i] == scans[i];
      rest + {scans[|scans| - 1].url}
  }

  /** Scanning a URL already in the list again does not change the distinct count. */
  lemma {:induction false} RepeatScan(scans: seq<ScanRecord>, r: ScanRecord)
    requires exists i :: 0 <= i < |scans| && scans[i].url == r.url
    ensures DistinctUrls(scans + [r]) == DistinctUrls(scans)
  {
    assert (scans + [r])[..|scans|] == scans;
  }

  /** A URL not scanned before adds one to the distinct count. */
  lemma {:induction false} NewUrlScan(scans: seq<ScanRecord>, r: ScanRecord)
    requires forall i :: 0 <= i < |scans| ==> scans[i].url != r.url
    ensures |DistinctUrls(scans + [r])| == |DistinctUrls(scans)| + 1
  {
    assert (scans + [r])[..|scans|] == scans;
    assert r.url !in DistinctUrls(scans);
  }

  // ---------------------------------------------------------------------------
  // Achievements

  const FirstScan := 0
  const CarbonTracker := 1
  const Champion := 2
  const EcoExplorer := 3
  const ProfileFirstLesson := 4

  /**
   * The eight profile achievements in display order: First Scan, Carbon
   * Tracker, Green Champion, Eco Explorer, First Lesson, Green Beginner,
   * Media Master and Code Optimizer.
   */
  ghost function ProfileAchievements(scans: seq<ScanRecord>, p: ProgressMap): (earned: seq<bool>)
    ensures |earned| == 8
  {
    [ |scans| >= 1,
      |scans| >= 5,
      |scans| > 0 && GreenChampion(scans),
      |DistinctUrls(scans)| >= 10,
      TotalLessonsCompleted(p) >= 1,
      IsModuleCompleted(p, 1),
      IsModuleCompleted(p, 2),
      IsModuleCompleted(p, 3) ]
  }

  /**
   * The scan badges: Eco Explorer needs ten different URLs and so implies
   * Carbon Tracker, which implies First Scan, as does Green Champion. The
   * EcoDev badges agree with the ones the course page shows.
   */
  lemma {:induction false} ProfileAchievementsMeaning(scans: seq<ScanRecord>, p: ProgressMap)
    ensures ProfileAchievements(scans, p)[EcoExplorer] ==> ProfileAchievements(scans, p)[CarbonTracker]
    ensures ProfileAchievements(scans, p)[CarbonTracker] ==> ProfileAchievements(scans, p)[FirstScan]
    ensures ProfileAchievements(scans, p)[Champion] ==> ProfileAchievements(scans, p)[FirstScan]
    ensures ProfileAchievements(scans, p)[ProfileFirstLesson] <==> exists k :: k in p && |p[k].completedLessons| > 0
    ensures ProfileAchievements(scans, p)[4..] == EarnedAchievements(p)[..4]
  {
    var earned := EarnedAchievements(p);
    assert ProfileAchievements(scans, p)[4..] == [earned[0], earned[1], earned[2], earned[3]];
    SomeLessonCompleted(p);
  }

  // ---------------------------------------------------------------------------
  // Avatar upload and username

  const MaxAvatarBytes := 2 * 1024 * 1024

  datatype AvatarFile = AvatarFile(name: string, size: nat)

  /** What choosing an avatar file leads to: nothing, the size error, or an upload to a path. */
  datatype AvatarStep = NoUpload | TooLarge | UploadTo(path: string)

  /**
   * Without a signed-in user or a chosen file nothing happens; a file over
   * 2 MiB is refused before any upload; otherwise the file goes to
   * `<user id>/avatar.<text after the last '.' of its name>`.
   */
  function AvatarUpload(userId: Option<string>, file: Option<AvatarFile>): (step: AvatarStep)
    ensures step == NoUpload <==> userId.None? || file.None?
    ensures step == TooLarge <==> userId.Some? && file.Some? && file.value.size > MaxAvatarBytes
    ensures step.UploadTo? ==> file.value.size <= MaxAvatarBytes
  {
    if userId.None? || file.None? then NoUpload
    else if file.value.size > MaxAvatarBytes then TooLarge
    else UploadTo(userId.value + "/avatar." + AfterLast(file.value.name, '.'))
  }

  /** The upload path gives back the user's folder and the file's extension. */
  lemma {:induction false} AvatarPathParts(userId: string, file: AvatarFile)
    requires '/' !in userId && file.size <= MaxAvatarBytes
    ensures var step := AvatarUpload(Some(userId), Some(file));
      && step.UploadTo?
      && '/' in step.path
      && step.path[..IndexOf(step.path, '/')] == userId
      && AfterLast(step.path, '.') == AfterLast(file.name, '.')
  {
    var ext := AfterLast(file.name, '.');
    assert AvatarUpload(Some(userId), Some(file)) == UploadTo(userId + "/avatar." + ext);
    AvatarFolder(userId, ext);
    AvatarExtension(userId, ext);
  }

  /** The text before the first `/` of an avatar path is the user's folder. */
  lemma {:induction false} AvatarFolder(userId: string, ext: string)
    requires '/' !in userId
    ensures var path := userId + "/avatar." + ext;
      '/' in path && path[..IndexOf(path, '/')] == userId
  {
    assert userId + "/avatar." + ext == userId + ['/'] + ("avatar." + ext);
    IndexOfAfter(userId, '/', "avatar." + ext);
  }

  /** The text after the last `.` of an avatar path is the extension it was built from. */
  lemma {:induction false} AvatarExtension(userId: string, ext: string)
    requires '.' !in ext
    ensures AfterLast(userId + "/avatar." + ext, '.') == ext
  {
    assert userId + "/avatar." + ext == (userId + "/avatar") + ['.'] + ext;
    AfterLastSuffix(userId + "/avatar", '.', ext);
  }

  /** Saving the username: nothing without a signed-in user; otherwise the trimmed name, or null when it is blank. */
  datatype UsernameSave = NoSave | Store(username: Option<string>)

  function SaveUsername(signedIn: bool, input: string): (save: UsernameSave)
    ensures save.NoSave? <==> !signedIn
    ensures save.Store? ==> (save.username.None? <==> AllWhite(input))
    ensures save.Store? && save.username.Some? ==> save.username.value != [] && Trim(save.username.value) == save.username.value
  {
    if !signedIn then NoSave
    else
      var trimmed := Trim(input);
      TrimIdempotent(input);
      Store(if trimmed == [] then None else Some(trimmed))
  }

  /** A stored name is the input with its leading and trailing white space cut off, and nothing else. */
  lemma {:induction false} StoredNameIsSlice(input: string)
    requires SaveUsername(true, input).username.Some?
    ensures var u := SaveUsername(true, input).username.value;
      var lead := LeadingWhite(input);
      && lead + |u| <= |input| && u == input[lead..lead + |u|]
      && (forall k :: 0 <= k < lead ==> IsWhite(input[k]))
      && (forall k :: lead + |u| <= k < |input| ==> IsWhite(input[k]))
      && !IsWhite(u[0]) && !IsWhite(u[|u| - 1])
  {
    assert SaveUsername(true, input).username.value == Trim(input);
  }
}

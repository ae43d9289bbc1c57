/** One cut in a package that would extract cleanly: exactly when its extraction is still the same. */
module DamagedPackages {
  import opened ByteStrings
  import opened Cpio
  import opened CutEffects
  import opened ExtractionCuts
  import opened HardLinks
  import opened StreamExtraction
  import opened UnpackSdk
  import opened Wrappers

  function Start(job: Job): State {
    State(map[], job.fs0, None)
  }

  /** A member with short contents in the archive. */
  function WithShort(job: Job, k: nat, n: nat): Job
    requires k < |job.es| && n <= |job.es[k].data|
  {
    job.(es := Shorten(job.es, k, n))
  }

  /** The member's contents go into the output directory. */
  ghost predicate Matters(job: Job, k: nat)
    requires k < |job.es| == |job.leader|
  {
    || (job.Selected(k) && IsLnk(job.es[k]))
    || exists j :: 0 <= j < |job.es| && job.Regular(j) && job.leader[j] == k
  }

  lemma SameButData(job: Job, k: nat, n: nat, i: nat)
    requires k < |job.es| && n <= |job.es[k].data| && i < |job.es|
    ensures var e, e' := job.es[i], WithShort(job, k, n).es[i];
      && e'.name == e.name && e'.info == e.info && (i != k ==> e' == e)
      && Linked(e') == Linked(e) && KeyOf(e') == KeyOf(e)
      && IsDir(e') == IsDir(e) && IsReg(e') == IsReg(e) && IsLnk(e') == IsLnk(e)
    ensures WithShort(job, k, n).Selected(i) == job.Selected(i)
    ensures job.Selected(i) ==>
      WithShort(job, k, n).Place(i) == job.Place(i) && WithShort(job, k, n).Rest(i) == job.Rest(i)
  {
  }

  lemma GroupsStay(job: Job, k: nat, n: nat)
    requires k < |job.es| && n <= |job.es[k].data| && job.CompleteGroups()
    ensures WithShort(job, k, n).CompleteGroups()
  {
    var job' := WithShort(job, k, n);
    forall i | 0 <= i < |job.es|
      ensures job'.InGroup(i)
    {
      assert job.InGroup(i);
      SameButData(job, k, n, i);
      SameButData(job, k, n, job.leader[i]);
    }
    forall i, j | 0 <= i < |job.es| && 0 <= j < |job.es|
      ensures job'.Apart(i, j)
    {
      assert job.Apart(i, j);
      SameButData(job, k, n, i);
      SameButData(job, k, n, j);
    }
  }

  lemma MakesStay(job: Job, k: nat, n: nat, d: Spot, j: nat)
    requires k < |job.es| && n <= |job.es[k].data| && j < |job.es|
    ensures WithShort(job, k, n).Makes(d, j) == job.Makes(d, j)
  {
    hide Spot.Chain, Job.Selected, Job.Place, IsDir, WithShort;
    SameButData(job, k, n, j);
  }

  lemma PathsStay(job: Job, k: nat, n: nat)
    requires k < |job.es| && n <= |job.es[k].data| && job.CleanPaths()
    ensures WithShort(job, k, n).CleanPaths()
  {
    var job' := WithShort(job, k, n);
    assert job'.fs0 == job.fs0 && |job'.es| == |job.es|;
    forall i | 0 <= i < |job.es|
      ensures job'.Selected(i) == job.Selected(i) && IsDir(job'.es[i]) == IsDir(job.es[i])
      ensures IsReg(job'.es[i]) == IsReg(job.es[i]) && IsLnk(job'.es[i]) == IsLnk(job.es[i])
      ensures job.Selected(i) ==> job'.Rest(i) == job.Rest(i) && job'.Place(i) == job.Place(i)
    {
      SameButData(job, k, n, i);
    }
    hide NamesDirectory, Job.Makes, Job.Selected, Job.Rest, Job.Place, IsDir, IsReg, IsLnk, WithShort,
      FileSystem.Has, FileSystem.Valid;
    forall d, j | 0 <= j < |job.es|
      ensures job'.Makes(d, j) == job.Makes(d, j)
    {
      MakesStay(job, k, n, d, j);
    }
  }

  /** With contents cut short the extraction still succeeds, and files hold the short contents. */
  lemma ShortIsSilent(job: Job, k: nat, n: nat)
    requires job.CompleteGroups() && job.CleanPaths() && k < |job.es| && n < |job.es[k].data|
    ensures var st := RunFrom(job.q, Start(job), Shorten(job.es, k, n));
      st.error == None && st.table == map[] && |job.leader| == |job.es| && Extracted(WithShort(job, k, n), st.fs)
  {
    GroupsStay(job, k, n);
    PathsStay(job, k, n);
    var job' := WithShort(job, k, n);
    hide Job.CompleteGroups, Job.CleanPaths, Extracted, Run, RunFrom, Shorten;
    ExtractionCorrect(job');
    RunOnFrom(job.q, job.fs0, [], job'.es);
    assert [] + job'.es == job'.es;
  }

  /** So it shows in the output directory when the contents matter. */
  lemma ShortShows(job: Job, k: nat, n: nat, fs: FileSystem)
    requires k < |job.es| == |job.leader| && n < |job.es[k].data| && Matters(job, k)
    requires Extracted(job, fs)
    ensures !Extracted(WithShort(job, k, n), fs)
  {
    var job' := WithShort(job, k, n);
    assert |job'.es[k].data| == n;
    if job.Selected(k) && IsLnk(job.es[k]) {
      SameButData(job, k, n, k);
      assert job.Created(fs, k) && !job'.Created(fs, k);
    } else {
      var j :| 0 <= j < |job.es| && job.Regular(j) && job.leader[j] == k;
      SameButData(job, k, n, j);
      assert job.Created(fs, j) && !job'.Created(fs, j);
    }
  }

  /** The whole archive extracts cleanly. */
  lemma WholeIsClean(job: Job, s: Bytes, rest: Bytes)
    requires ParseArchive(s) == Archive(job.es, Ok(rest)) && job.CompleteGroups() && job.CleanPaths()
    ensures var st := Outcome(job.q, Start(job), ParseArchive(s));
      && st == Extraction(job.q, job.fs0, ParseArchive(s))
      && st.error == None && |job.leader| == |job.es| && Extracted(job, st.fs)
  {
    assert Run(job.q, job.fs0, []) == Start(job);
    hide ParseArchive, Extracted, Run, RunFrom, Start;
    ExtractionCorrect(job);
    RunOnFrom(job.q, job.fs0, [], job.es);
    assert [] + job.es == job.es;
  }

  /**
    One cut, in a package that extracts cleanly when whole, where the loop is not misled and
    short contents are ones that matter: the extraction is the same if and only if the reads
    do not notice the cut.
  */
  lemma OneCutIff(job: Job, a: Bytes, b: Bytes, rest: Bytes)
    requires b != [] && ParseArchive(a + b) == Archive(job.es, Ok(rest))
    requires job.CompleteGroups() && job.CleanPaths()
    requires match DamageOf(job.q, Start(job), a, b)
      case Misled => false
      case Shortened(k, _) => k < |job.es| == |job.leader| && Matters(job, k)
      case _ => true
    ensures ExtractAt(job.q, Start(job), [a, b]) == Extraction(job.q, job.fs0, ParseArchive(a + b))
       <==> Smooth(job.q, Start(job), [a, b])
  {
    OneCut(job.q, Start(job), a, b);
    WholeIsClean(job, a + b, rest);
    var d := DamageOf(job.q, Start(job), a, b);
    assert Happens(job.q, Start(job), a, b, d);
    hide ParseArchive, ExtractAt, RunFrom, Extraction, Smooth, DamageOf, Extracted, Matters, Job.CompleteGroups,
      Job.CleanPaths, Outcome, Shorten;
    if d.Shortened? {
      ShortIsSilent(job, d.member, d.kept);
      ShortShows(job, d.member, d.kept, Extraction(job.q, job.fs0, ParseArchive(a + b)).fs);
    }
  }

  /**
    A cut that leaves contents short is silent: the extraction succeeds, and every file of
    that member's group holds only the contents in front of the cut.
  */
  lemma CutIsSilent(job: Job, a: Bytes, b: Bytes, rest: Bytes)
    requires b != [] && ParseArchive(a + b) == Archive(job.es, Ok(rest))
    requires job.CompleteGroups() && job.CleanPaths() && DamageOf(job.q, Start(job), a, b).Shortened?
    ensures var d := DamageOf(job.q, Start(job), a, b);
      var st := ExtractAt(job.q, Start(job), [a, b]);
      && d.member < |job.es| == |job.leader| && d.kept < |job.es[d.member].data|
      && st.error == None && Extracted(WithShort(job, d.member, d.kept), st.fs)
  {
    OneCut(job.q, Start(job), a, b);
    var d := DamageOf(job.q, Start(job), a, b);
    assert Happens(job.q, Start(job), a, b, d);
    hide ParseArchive, ExtractAt, RunFrom, DamageOf, Extracted, Job.CompleteGroups, Job.CleanPaths, Shorten;
    ShortIsSilent(job, d.member, d.kept);
  }
}

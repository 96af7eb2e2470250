/**
 * The global report repository: one ordered list of report repositories (the
 * local repository first, then one remote repository per active configuration
 * entry) behind a single catalogue, with per-report queries routed by the
 * repository id that prefixes every composite report id.
 */
module GlobalReportRepository {
  import opened Wrappers
  import opened ReportRepository

  /** Separates the repository id from the rest of a composite report id. */
  const RepositoryReportSep: char := '_'

  // ---------------------------------------------------------------------------
  // Java string operations used for routing
  // ---------------------------------------------------------------------------

  /** `s.indexOf(c)`: the first position of `c` in `s`, or -1 when there is none. */
  function IndexOf(s: string, c: char): (r: int)
    ensures -1 <= r < |s|
    ensures r == -1 <==> c !in s
    ensures 0 <= r ==> s[r] == c && c !in s[..r]
  {
    if s == [] then -1
    else if s[0] == c then 0
    else
      var k := IndexOf(s[1..], c);
      if k == -1 then -1
      else
        assert s[..k + 1] == [s[0]] + s[1..][..k];
        k + 1
  }

  /** `s.substring(begin, end)`: throws unless `0 <= begin <= end <= s.length()`. */
  function Substring(s: string, begin: int, end: int): (r: Result<string>)
    ensures r.Success? <==> 0 <= begin <= end <= |s|
    ensures r.Success? ==> |r.value| == end - begin && forall i :: 0 <= i < |r.value| ==> r.value[i] == s[begin + i]
  {
    if 0 <= begin <= end <= |s| then Success(s[begin..end]) else Failure(StringIndexOutOfBounds)
  }

  /**
   * The repository id part of a report id: `reportId.substring(0, reportId.indexOf("_"))`.
   * It throws exactly when the id has no separator; otherwise it is the text
   * before the first separator.
   */
  function RepositoryPrefix(reportId: string): (r: Result<string>)
    ensures r.Failure? <==> RepositoryReportSep !in reportId
    ensures r.Failure? ==> r.error == StringIndexOutOfBounds
    ensures r.Success? ==>
      |r.value| < |reportId| && reportId[..|r.value|] == r.value &&
      reportId[|r.value|] == RepositoryReportSep && RepositoryReportSep !in r.value
  {
    var r := Substring(reportId, 0, IndexOf(reportId, RepositoryReportSep));
    assert r.Success? ==> r.value == reportId[..|r.value|];
    r
  }

  /** A composite id built from a repository id without separator routes back to that repository id. */
  lemma PrefixOfComposite(repositoryId: string, rest: string)
    requires RepositoryReportSep !in repositoryId
    ensures RepositoryPrefix(repositoryId + [RepositoryReportSep] + rest) == Success(repositoryId)
  {
    var s := repositoryId + [RepositoryReportSep] + rest;
    var n := |repositoryId|;
    assert s[n] == RepositoryReportSep;
    assert s[..n] == repositoryId;
  }

  // ---------------------------------------------------------------------------
  // Lookup of a repository by id: linear scan, first match wins
  // ---------------------------------------------------------------------------

  /** The position of the first repository in `list` whose id is `id`, or `None`. */
  function RepositoryIndex(list: seq<Repo>, id: string): (r: Option<nat>)
    ensures r.Some? ==> r.value < |list| && list[r.value].id == id
    ensures r.Some? ==> forall j :: 0 <= j < r.value ==> list[j].id != id
    ensures r.None? <==> forall j :: 0 <= j < |list| ==> list[j].id != id
  {
    if list == [] then None
    else if list[0].id == id then Some(0)
    else
      match RepositoryIndex(list[1..], id)
      case None => None
      case Some(k) => Some(k + 1)
  }

  /** `getRepositoryById` as a value: the first repository with that id, or `None` (null). */
  function RepositoryById(list: seq<Repo>, id: string): (r: Option<Repo>)
    ensures r.None? <==> forall j :: 0 <= j < |list| ==> list[j].id != id
    ensures r.Some? ==> r.value == list[RepositoryIndex(list, id).value]
  {
    match RepositoryIndex(list, id)
    case None => None
    case Some(k) => Some(list[k])
  }

  /**
   * Appending a repository never changes an id lookup that already hit; a miss
   * becomes a hit exactly when the appended repository carries that id.
   */
  lemma RepositoryByIdAppend(list: seq<Repo>, repo: Repo, id: string)
    ensures RepositoryById(list, id).Some? ==> RepositoryById(list + [repo], id) == RepositoryById(list, id)
    ensures RepositoryById(list, id).None? ==>
      RepositoryById(list + [repo], id) == (if repo.id == id then Some(repo) else None)
  {
    var longer := list + [repo];
    assert forall j :: 0 <= j < |list| ==> longer[j] == list[j];
    assert longer[|list|] == repo;
  }

  // ---------------------------------------------------------------------------
  // Routing of per-report queries
  // ---------------------------------------------------------------------------

  /**
   * `getRepositoryForReport` as a value: throws when the report id has no
   * separator, otherwise the id lookup of the prefix before the first separator.
   */
  function RepositoryForReport(list: seq<Repo>, reportId: string): (r: Result<Option<Repo>>)
    ensures r.Failure? <==> RepositoryReportSep !in reportId
    ensures r.Failure? ==> r.error == StringIndexOutOfBounds
    ensures r.Success? && r.value.None? ==>
      forall j :: 0 <= j < |list| ==> list[j].id != RepositoryPrefix(reportId).value
    ensures r.Success? && r.value.Some? ==>
      RepositoryIndex(list, RepositoryPrefix(reportId).value).Some? &&
      r.value.value == list[RepositoryIndex(list, RepositoryPrefix(reportId).value).value] &&
      r.value.value.id == RepositoryPrefix(reportId).value
  {
    match RepositoryPrefix(reportId)
    case Failure(e) => Failure(e)
    case Success(prefix) => Success(RepositoryById(list, prefix))
  }

  /**
   * `getReportService`, `getDisplayName`, `getEngine` as values: the routed
   * repository's answer for the full report id, "" when no repository has the
   * prefix as its id, an exception when the report id has no separator.
   */
  function RoutedAttribute(list: seq<Repo>, reportId: string, a: Attribute): (r: Result<string>)
    ensures r.Failure? <==> RepositoryReportSep !in reportId
    ensures RepositoryForReport(list, reportId) == Success(None) ==> r == Success("")
  {
    match RepositoryForReport(list, reportId)
    case Failure(e) => Failure(e)
    case Success(None) => Success("")
    case Success(Some(repo)) => Success(repo.AttributeOf(a, reportId))
  }

  /** `getTemplateStream` as a value: like `RoutedAttribute`, with `None` (null) on a routing miss. */
  function RoutedTemplate(list: seq<Repo>, reportId: string): (r: Result<Option<TemplateStream>>)
    ensures r.Failure? <==> RepositoryReportSep !in reportId
    ensures RepositoryForReport(list, reportId) == Success(None) ==> r == Success(None)
  {
    match RepositoryForReport(list, reportId)
    case Failure(e) => Failure(e)
    case Success(None) => Success(None)
    case Success(Some(repo)) => Success(repo.Template(reportId))
  }

  /**
   * A composite id `<repositoryId>_<rest>` is answered by the first repository
   * whose id is `repositoryId`, queried with the whole, unchanged composite id;
   * when there is none the answer is "".
   */
  lemma RoutedAttributeComposite(list: seq<Repo>, repositoryId: string, rest: string, a: Attribute)
    requires RepositoryReportSep !in repositoryId
    ensures RepositoryIndex(list, repositoryId).Some? ==>
      RoutedAttribute(list, repositoryId + [RepositoryReportSep] + rest, a) ==
      Success(list[RepositoryIndex(list, repositoryId).value].AttributeOf(a, repositoryId + [RepositoryReportSep] + rest))
    ensures RepositoryIndex(list, repositoryId).None? ==>
      RoutedAttribute(list, repositoryId + [RepositoryReportSep] + rest, a) == Success("")
  {
    PrefixOfComposite(repositoryId, rest);
  }

  /** The template of a composite id comes from the first repository with its prefix, or is `None`. */
  lemma RoutedTemplateComposite(list: seq<Repo>, repositoryId: string, rest: string)
    requires RepositoryReportSep !in repositoryId
    ensures RepositoryIndex(list, repositoryId).Some? ==>
      RoutedTemplate(list, repositoryId + [RepositoryReportSep] + rest) ==
      Success(list[RepositoryIndex(list, repositoryId).value].Template(repositoryId + [RepositoryReportSep] + rest))
    ensures RepositoryIndex(list, repositoryId).None? ==>
      RoutedTemplate(list, repositoryId + [RepositoryReportSep] + rest) == Success(None)
  {
    PrefixOfComposite(repositoryId, rest);
  }

  // ---------------------------------------------------------------------------
  // Catalogues: concatenation in list order
  // ---------------------------------------------------------------------------

  /** The listings of every repository in `list`, one after the other in list order. */
  function Concatenation(list: seq<Repo>, c: Catalogue): seq<ReportDefinition>
    decreases |list|
  {
    if list == [] then [] else Concatenation(list[..|list| - 1], c) + list[|list| - 1].Listing(c)
  }

  /** The sum of the lengths of the listings of every repository in `list`. */
  function TotalLength(list: seq<Repo>, c: Catalogue): nat
  {
    if list == [] then 0 else |list[0].Listing(c)| + TotalLength(list[1..], c)
  }

  /** Concatenating after an appended repository adds that repository's listing at the end. */
  lemma ConcatenationAppend(list: seq<Repo>, repo: Repo, c: Catalogue)
    ensures Concatenation(list + [repo], c) == Concatenation(list, c) + repo.Listing(c)
  {
    assert (list + [repo])[..|list|] == list;
  }

  /** Concatenation distributes over splitting the repository list in two. */
  lemma {:induction false} ConcatenationSplit(a: seq<Repo>, b: seq<Repo>, c: Catalogue)
    ensures Concatenation(a + b, c) == Concatenation(a, c) + Concatenation(b, c)
    decreases |b|
  {
    if b == [] {
      assert a + b == a;
    } else {
      var init := b[..|b| - 1];
      var last := b[|b| - 1];
      assert a + b == (a + init) + [last];
      assert b == init + [last];
      ConcatenationAppend(a + init, last, c);
      ConcatenationAppend(init, last, c);
      ConcatenationSplit(a, init, c);
    }
  }

  /** The concatenation is as long as all the listings together. */
  lemma {:induction false} ConcatenationLength(list: seq<Repo>, c: Catalogue)
    ensures |Concatenation(list, c)| == TotalLength(list, c)
    decreases |list|
  {
    if list != [] {
      assert list == [list[0]] + list[1..];
      ConcatenationSplit([list[0]], list[1..], c);
      assert Concatenation([list[0]], c) == list[0].Listing(c) by {
        assert [list[0]][..0] == [];
      }
      ConcatenationLength(list[1..], c);
    }
  }

  /** A report is in the concatenation exactly when some repository of the list lists it. */
  lemma {:induction false} ConcatenationMembership(list: seq<Repo>, c: Catalogue, report: ReportDefinition)
    ensures report in Concatenation(list, c) <==> exists j :: 0 <= j < |list| && report in list[j].Listing(c)
    decreases |list|
  {
    if list != [] {
      var init := list[..|list| - 1];
      ConcatenationMembership(init, c, report);
      if report in Concatenation(list, c) {
        if report !in list[|list| - 1].Listing(c) {
          var j :| 0 <= j < |init| && report in init[j].Listing(c);
          assert list[j] == init[j];
        }
      } else {
        forall j | 0 <= j < |list|
          ensures report !in list[j].Listing(c)
        {
          if j < |init| {
            assert list[j] == init[j];
          }
        }
      }
    }
  }

  // ---------------------------------------------------------------------------
  // Building the list from the remote repository configuration
  // ---------------------------------------------------------------------------

  /**
   * The remote repository configuration as it is read: the remote repositories
   * built from the active definitions, in order, and, when `failure` is
   * `Some(k)`, the position at which building a remote repository throws
   * (a failing `getActiveRepositories()` is position 0).
   */
  datatype RemoteRepositoryConfig = RemoteRepositoryConfig(
    activeRepositories: seq<Repo>,
    failure: Option<nat>)

  /** The remote repositories that are added before the first failure, in order. */
  function CreatedRemotes(config: RemoteRepositoryConfig): (r: seq<Repo>)
    ensures |r| <= |config.activeRepositories| && r == config.activeRepositories[..|r|]
    ensures forall j :: 0 <= j < |r| ==> config.failure != Some(j)
    ensures config.failure.Some? && config.failure.value <= |config.activeRepositories| ==>
      |r| == config.failure.value
    ensures !(config.failure.Some? && config.failure.value <= |config.activeRepositories|) ==>
      |r| == |config.activeRepositories|
  {
    match config.failure
    case None => config.activeRepositories
    case Some(k) =>
      if k <= |config.activeRepositories| then config.activeRepositories[..k] else config.activeRepositories
  }

  /** After construction the catalogue lists the local repository's reports first, then the remotes'. */
  lemma ConstructionCatalogue(local: Repo, config: RemoteRepositoryConfig, c: Catalogue)
    ensures Concatenation([local] + CreatedRemotes(config), c) == local.Listing(c) + Concatenation(CreatedRemotes(config), c)
  {
    ConcatenationSplit([local], CreatedRemotes(config), c);
    assert [local][..0] == [];
  }

  /**
   * The global report repository. `repositoryList` is the only state the
   * queries read; it is only ever appended to.
   */
  class DefaultGlobalReportRepository {
    var remoteRepositoryConfigDao: RemoteRepositoryConfig
    var localReportRepository: Repo
    var repositoryList: seq<Repo>

    /** Starts from an empty list and builds it with `SetRemoteRepositoryConfigDao`. */
    constructor (remoteRepositoryConfigDao: RemoteRepositoryConfig, reportRepository: Repo)
      ensures this.remoteRepositoryConfigDao == remoteRepositoryConfigDao
      ensures localReportRepository == reportRepository
      ensures repositoryList == [reportRepository] + CreatedRemotes(remoteRepositoryConfigDao)
    {
      this.remoteRepositoryConfigDao := remoteRepositoryConfigDao;
      localReportRepository := reportRepository;
      repositoryList := [];
      new;
      SetRemoteRepositoryConfigDao(remoteRepositoryConfigDao);
    }

    /**
     * Appends the local repository, then one remote repository per active
     * definition until one fails to build; the failure is swallowed.
     */
    method SetRemoteRepositoryConfigDao(config: RemoteRepositoryConfig)
      modifies this
      ensures remoteRepositoryConfigDao == config
      ensures localReportRepository == old(localReportRepository)
      ensures repositoryList == old(repositoryList) + [localReportRepository] + CreatedRemotes(config)
    {
      remoteRepositoryConfigDao := config;
      repositoryList := repositoryList + [localReportRepository];
      ghost var base := repositoryList;
      var active := config.activeRepositories;
      var i := 0;
      while i < |active| && config.failure != Some(i)
        invariant 0 <= i <= |active|
        invariant forall j :: 0 <= j < i ==> config.failure != Some(j)
        invariant repositoryList == base + active[..i]
        invariant localReportRepository == old(localReportRepository)
        invariant remoteRepositoryConfigDao == config
      {
        repositoryList := repositoryList + [active[i]];
        assert active[..i + 1] == active[..i] + [active[i]];
        i := i + 1;
      }
      assert active[..|active|] == active;
    }

    method GetRemoteRepositoryConfigDao() returns (config: RemoteRepositoryConfig)
      ensures config == remoteRepositoryConfigDao
    {
      config := remoteRepositoryConfigDao;
    }

    /** Replaces the local repository used by later calls of `SetRemoteRepositoryConfigDao`; the list is untouched. */
    method SetLocalReportRepository(reportRepository: Repo)
      modifies this
      ensures localReportRepository == reportRepository
      ensures repositoryList == old(repositoryList) && remoteRepositoryConfigDao == old(remoteRepositoryConfigDao)
    {
      localReportRepository := reportRepository;
    }

    method GetReportRepository() returns (reportRepository: Repo)
      ensures reportRepository == localReportRepository
    {
      reportRepository := localReportRepository;
    }

    /** Every report of every repository, in list order. */
    method GetAllReports() returns (results: seq<ReportDefinition>)
      ensures results == Concatenation(repositoryList, AllReports)
    {
      results := [];
      for i := 0 to |repositoryList|
        invariant results == Concatenation(repositoryList[..i], AllReports)
      {
        ConcatenationAppend(repositoryList[..i], repositoryList[i], AllReports);
        assert repositoryList[..i + 1] == repositoryList[..i] + [repositoryList[i]];
        results := results + repositoryList[i].reports;
      }
      assert repositoryList[..|repositoryList|] == repositoryList;
    }

    /** The reports of the first repository with that id; empty, never null, when there is none. */
    method GetReports(repositoryId: string) returns (results: seq<ReportDefinition>)
      ensures match RepositoryIndex(repositoryList, repositoryId)
        case None => results == []
        case Some(k) => results == repositoryList[k].reports
    {
      results := [];
      var repository := GetRepositoryById(repositoryId);
      if repository.Some? {
        results := results + repository.value.reports;
      }
    }

    /** Every online report of every repository, in list order. */
    method GetAllOnlineReports() returns (results: seq<ReportDefinition>)
      ensures results == Concatenation(repositoryList, OnlineReports)
    {
      results := [];
      for i := 0 to |repositoryList|
        invariant results == Concatenation(repositoryList[..i], OnlineReports)
      {
        ConcatenationAppend(repositoryList[..i], repositoryList[i], OnlineReports);
        assert repositoryList[..i + 1] == repositoryList[..i] + [repositoryList[i]];
        results := results + repositoryList[i].online;
      }
      assert repositoryList[..|repositoryList|] == repositoryList;
    }

    /** The online reports of the first repository with that id; empty when there is none. */
    method GetOnlineReports(repositoryId: string) returns (results: seq<ReportDefinition>)
      ensures match RepositoryIndex(repositoryList, repositoryId)
        case None => results == []
        case Some(k) => results == repositoryList[k].online
    {
      results := [];
      var repository := GetRepositoryById(repositoryId);
      if repository.Some? {
        results := results + repository.value.online;
      }
    }

    method GetReportService(reportId: string) returns (result: Result<string>)
      ensures result == RoutedAttribute(repositoryList, reportId, ReportService)
    {
      var repository := GetRepositoryForReport(reportId);
      if repository.Failure? {
        return Failure(repository.error);
      }
      var service := "";
      if repository.value.Some? {
        service := repository.value.value.AttributeOf(ReportService, reportId);
      }
      result := Success(service);
    }

    method GetDisplayName(reportId: string) returns (result: Result<string>)
      ensures result == RoutedAttribute(repositoryList, reportId, DisplayName)
    {
      var repository := GetRepositoryForReport(reportId);
      if repository.Failure? {
        return Failure(repository.error);
      }
      var name := "";
      if repository.value.Some? {
        name := repository.value.value.AttributeOf(DisplayName, reportId);
      }
      result := Success(name);
    }

    method GetEngine(reportId: string) returns (result: Result<string>)
      ensures result == RoutedAttribute(repositoryList, reportId, Engine)
    {
      var repository := GetRepositoryForReport(reportId);
      if repository.Failure? {
        return Failure(repository.error);
      }
      var engine := "";
      if repository.value.Some? {
        engine := repository.value.value.AttributeOf(Engine, reportId);
      }
      result := Success(engine);
    }

    method GetTemplateStream(reportId: string) returns (result: Result<Option<TemplateStream>>)
      ensures result == RoutedTemplate(repositoryList, reportId)
    {
      var repository := GetRepositoryForReport(reportId);
      if repository.Failure? {
        return Failure(repository.error);
      }
      var templateStream := None;
      if repository.value.Some? {
        templateStream := repository.value.value.Template(reportId);
      }
      result := Success(templateStream);
    }

    method GetRepositoryList() returns (list: seq<Repo>)
      ensures list == repositoryList
    {
      list := repositoryList;
    }

    /** Appends a repository at the end of the list. */
    method AddReportRepository(repository: Repo)
      modifies this
      ensures repositoryList == old(repositoryList) + [repository]
      ensures localReportRepository == old(localReportRepository)
      ensures remoteRepositoryConfigDao == old(remoteRepositoryConfigDao)
    {
      repositoryList := repositoryList + [repository];
    }

    /** Scans the list in order and returns the first repository with that id, or `None` (null). */
    method GetRepositoryById(repositoryId: string) returns (repository: Option<Repo>)
      ensures repository == RepositoryById(repositoryList, repositoryId)
    {
      for i := 0 to |repositoryList|
        invariant forall j :: 0 <= j < i ==> repositoryList[j].id != repositoryId
      {
        if repositoryId == repositoryList[i].id {
          return Some(repositoryList[i]);
        }
      }
      return None;
    }

    /** Routes a report id to a repository by the prefix before its first separator. */
    method GetRepositoryForReport(reportId: string) returns (repository: Result<Option<Repo>>)
      ensures repository == RepositoryForReport(repositoryList, reportId)
    {
      var repositoryId := Substring(reportId, 0, IndexOf(reportId, RepositoryReportSep));
      if repositoryId.Failure? {
        return Failure(repositoryId.error);
      }
      var found := GetRepositoryById(repositoryId.value);
      repository := Success(found);
    }
  }
}

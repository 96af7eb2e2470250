/**
 * The read interface every report repository offers to the global repository
 * (local disk repository and remote repositories alike), as plain values.
 */
module ReportRepository {
  import opened Wrappers

  /** A report listed by a repository; its `id` is the composite `<repositoryId>_<reportId>`. */
  datatype ReportDefinition = ReportDefinition(
    id: string,
    displayName: string,
    description: string,
    reportService: string)

  /** The content of a report template, treated as an opaque value. */
  datatype TemplateStream = TemplateStream(content: seq<bv8>)

  /** The two catalogues a repository lists: all its reports, or only the online ones. */
  datatype Catalogue = AllReports | OnlineReports

  /** The per-report string attributes a repository answers for a report id. */
  datatype Attribute = ReportService | DisplayName | Engine

  /**
   * A report repository: its id, its two catalogues, and its answers to
   * per-report queries, keyed by the full composite report id.
   */
  datatype Repo = Repo(
    id: string,
    reports: seq<ReportDefinition>,
    online: seq<ReportDefinition>,
    reportServices: map<string, string>,
    displayNames: map<string, string>,
    engines: map<string, string>,
    templates: map<string, TemplateStream>)
  {
    /** `getReports()` or `getOnlineReports()` of this repository. */
    function Listing(c: Catalogue): seq<ReportDefinition>
    {
      match c
      case AllReports => reports
      case OnlineReports => online
    }

    /** `getReportService`, `getDisplayName` or `getEngine` of this repository; "" for an id it does not know. */
    function AttributeOf(a: Attribute, reportId: string): string
    {
      var m := match a
        case ReportService => reportServices
        case DisplayName => displayNames
        case Engine => engines;
      if reportId in m then m[reportId] else ""
    }

    /** `getTemplateStream` of this repository; `None` (null) for an id it does not know. */
    function Template(reportId: string): Option<TemplateStream>
    {
      if reportId in templates then Some(templates[reportId]) else None
    }
  }
}

# OpenNMS global report repository and negative outage interface filter

A Dafny model of two small pieces of OpenNMS.

**The global report repository** (`DefaultGlobalReportRepository`) keeps an ordered
list of report repositories. Construction puts the local repository first.
Then it adds one remote repository per active entry of the remote repository
configuration, and stops at the first entry that fails to build. Catalogue
queries concatenate every repository's listing in list order. Per-report queries
(service, display name, engine, template) go to the first repository whose id is
the report id's prefix before the first `_`. They pass that repository the full,
unchanged report id. A routing miss gives `""` (or null for the template). A
report id without `_` makes `substring` throw.

The model is the class `GlobalReportRepository.DefaultGlobalReportRepository`,
whose `repositoryList: seq<Repo>` is appended in place. `GetAllReports`, `GetAllOnlineReports`, `GetRepositoryById` and
`SetRemoteRepositoryConfigDao` are loops; the other queries are straight-line code
that calls `GetRepositoryById`. All of them are proved against specification
functions on the list: `Concatenation`,
`RepositoryIndex`/`RepositoryById`, `RepositoryForReport`, `RoutedAttribute` and
`RoutedTemplate`. Lemmas state what those functions mean. A repository
(`ReportRepository.Repo`) is a value: its id, its two catalogues and its
per-report answers, keyed by the full report id. Java `null` is `Option.None`;
a thrown exception is `Result.Failure`.

**The negative interface filter** (`NegativeInterfaceFilter`) is pure. It is a
datatype holding the address, with one function per string it builds. Each
function is specified by the inverse `Unwrap`: the address can be recovered
between the fixed prefix and suffix. Equality goes through `toString`, and it is
proved to hold exactly when the addresses are equal.

Files: `wrappers.dfy` (Option, Result, exceptions), `report_repository.dfy`
(the repository interface as values), `global_report_repository.dfy`,
`negative_interface_filter.dfy`.

Two behaviours of the code worth knowing:
- A report id without `_` makes `substring` throw `StringIndexOutOfBoundsException`,
  and that exception leaves `getReportService`, `getDisplayName`, `getEngine` and
  `getTemplateStream`.
- All remotes are built inside one `try`, so a failure at remote k drops remote k
  and every remote after it; the list is the local repository plus the first k remotes.

## Model

| member | source | states |
|---|---|---|
| GlobalReportRepository.IndexOf | features/reporting/repository/src/main/java/org/opennms/features/reporting/repository/global/DefaultGlobalReportRepository.java:274 | -1 exactly when the separator is absent; otherwise the position of its first occurrence, with none before it |
| GlobalReportRepository.Substring | features/reporting/repository/src/main/java/org/opennms/features/reporting/repository/global/DefaultGlobalReportRepository.java:274 | Java `substring`: succeeds exactly when 0 <= begin <= end <= length, with the characters begin..end; throws StringIndexOutOfBounds otherwise |
| GlobalReportRepository.RepositoryPrefix | features/reporting/repository/src/main/java/org/opennms/features/reporting/repository/global/DefaultGlobalReportRepository.java:273-276 | throws exactly when the report id has no `_`; otherwise the text before the first `_`, which holds no `_` and is followed by one |
| GlobalReportRepository.PrefixOfComposite | features/reporting/repository/src/main/java/org/opennms/features/reporting/repository/global/DefaultGlobalReportRepository.java:82-84 | a composite id `<repositoryId>_<rest>` with no `_` in repositoryId yields repositoryId again |
| GlobalReportRepository.RepositoryIndex | features/reporting/repository/src/main/java/org/opennms/features/reporting/repository/global/DefaultGlobalReportRepository.java:255-265 | the position of the first repository whose id matches, with no match before it; None exactly when no repository's id matches |
| GlobalReportRepository.RepositoryById | features/reporting/repository/src/main/java/org/opennms/features/reporting/repository/global/DefaultGlobalReportRepository.java:255-265 | null exactly when no repository's id matches; otherwise the repository at the first matching position |
| GlobalReportRepository.RepositoryByIdAppend | features/reporting/repository/src/main/java/org/opennms/features/reporting/repository/global/DefaultGlobalReportRepository.java:243-265 | appending keeps every existing hit; a miss turns into a hit only when the appended repository has that id |
| GlobalReportRepository.RepositoryForReport | features/reporting/repository/src/main/java/org/opennms/features/reporting/repository/global/DefaultGlobalReportRepository.java:273-276 | throws exactly when the report id has no `_`; a miss means no repository has the prefix as id; a hit is the first repository in list order whose id is the prefix |
| GlobalReportRepository.RoutedAttribute | features/reporting/repository/src/main/java/org/opennms/features/reporting/repository/global/DefaultGlobalReportRepository.java:182-215 | fails exactly on ids without `_`; the answer is "" on a routing miss |
| GlobalReportRepository.RoutedTemplate | features/reporting/repository/src/main/java/org/opennms/features/reporting/repository/global/DefaultGlobalReportRepository.java:221-228 | fails exactly on ids without `_`; the answer is null on a routing miss |
| GlobalReportRepository.RoutedAttributeComposite | features/reporting/repository/src/main/java/org/opennms/features/reporting/repository/global/DefaultGlobalReportRepository.java:182-215 | for `<repositoryId>_<rest>`, the answer is the first repository with that id's answer for the full composite id, or "" when there is none |
| GlobalReportRepository.RoutedTemplateComposite | features/reporting/repository/src/main/java/org/opennms/features/reporting/repository/global/DefaultGlobalReportRepository.java:221-228 | for `<repositoryId>_<rest>`, the template is the first repository with that id's template for the full id, or null |
| GlobalReportRepository.ConcatenationAppend | features/reporting/repository/src/main/java/org/opennms/features/reporting/repository/global/DefaultGlobalReportRepository.java:132-138 | adding a repository at the end adds its listing at the end of the catalogue |
| GlobalReportRepository.ConcatenationSplit | features/reporting/repository/src/main/java/org/opennms/features/reporting/repository/global/DefaultGlobalReportRepository.java:132-138 | the catalogue of two lists joined is the two catalogues joined, in order |
| GlobalReportRepository.ConcatenationLength | features/reporting/repository/src/main/java/org/opennms/features/reporting/repository/global/DefaultGlobalReportRepository.java:132-138 | the catalogue's length is the sum of the listings' lengths |
| GlobalReportRepository.ConcatenationMembership | features/reporting/repository/src/main/java/org/opennms/features/reporting/repository/global/DefaultGlobalReportRepository.java:132-138 | a report is in the catalogue exactly when some repository of the list lists it |
| GlobalReportRepository.CreatedRemotes | features/reporting/repository/src/main/java/org/opennms/features/reporting/repository/global/DefaultGlobalReportRepository.java:339-345 | always a prefix of the active remotes, none of them at the failing position; of length k when building remote k fails, and all of them otherwise |
| GlobalReportRepository.ConstructionCatalogue | features/reporting/repository/src/main/java/org/opennms/features/reporting/repository/global/DefaultGlobalReportRepository.java:100-138 | after construction the catalogue is the local repository's listing followed by the created remotes' |
| GlobalReportRepository.DefaultGlobalReportRepository.constructor | features/reporting/repository/src/main/java/org/opennms/features/reporting/repository/global/DefaultGlobalReportRepository.java:100-126 | the list is the local repository followed by the remotes created before the first failure |
| GlobalReportRepository.DefaultGlobalReportRepository.SetRemoteRepositoryConfigDao | features/reporting/repository/src/main/java/org/opennms/features/reporting/repository/global/DefaultGlobalReportRepository.java:327-346 | appends the local repository and then the created remotes to the old list; nothing is removed and the failure does not propagate |
| GlobalReportRepository.DefaultGlobalReportRepository.GetRemoteRepositoryConfigDao | features/reporting/repository/src/main/java/org/opennms/features/reporting/repository/global/DefaultGlobalReportRepository.java:355-357 | returns the configuration last set |
| GlobalReportRepository.DefaultGlobalReportRepository.SetLocalReportRepository | features/reporting/repository/src/main/java/org/opennms/features/reporting/repository/global/DefaultGlobalReportRepository.java:285-287 | replaces the local repository and leaves the list unchanged |
| GlobalReportRepository.DefaultGlobalReportRepository.GetReportRepository | features/reporting/repository/src/main/java/org/opennms/features/reporting/repository/global/DefaultGlobalReportRepository.java:296-298 | returns the local repository |
| GlobalReportRepository.DefaultGlobalReportRepository.GetAllReports | features/reporting/repository/src/main/java/org/opennms/features/reporting/repository/global/DefaultGlobalReportRepository.java:132-138 | the concatenation of every repository's reports in list order |
| GlobalReportRepository.DefaultGlobalReportRepository.GetReports | features/reporting/repository/src/main/java/org/opennms/features/reporting/repository/global/DefaultGlobalReportRepository.java:144-151 | the reports of the first repository with that id; empty (not null) when none matches |
| GlobalReportRepository.DefaultGlobalReportRepository.GetAllOnlineReports | features/reporting/repository/src/main/java/org/opennms/features/reporting/repository/global/DefaultGlobalReportRepository.java:157-163 | the concatenation of every repository's online reports in list order |
| GlobalReportRepository.DefaultGlobalReportRepository.GetOnlineReports | features/reporting/repository/src/main/java/org/opennms/features/reporting/repository/global/DefaultGlobalReportRepository.java:169-176 | the online reports of the first repository with that id; empty when none matches |
| GlobalReportRepository.DefaultGlobalReportRepository.GetReportService | features/reporting/repository/src/main/java/org/opennms/features/reporting/repository/global/DefaultGlobalReportRepository.java:182-189 | the routed answer for the report service, as RoutedAttribute states |
| GlobalReportRepository.DefaultGlobalReportRepository.GetDisplayName | features/reporting/repository/src/main/java/org/opennms/features/reporting/repository/global/DefaultGlobalReportRepository.java:195-202 | the routed answer for the display name, as RoutedAttribute states |
| GlobalReportRepository.DefaultGlobalReportRepository.GetEngine | features/reporting/repository/src/main/java/org/opennms/features/reporting/repository/global/DefaultGlobalReportRepository.java:208-215 | the routed answer for the engine, as RoutedAttribute states |
| GlobalReportRepository.DefaultGlobalReportRepository.GetTemplateStream | features/reporting/repository/src/main/java/org/opennms/features/reporting/repository/global/DefaultGlobalReportRepository.java:221-228 | the routed template, as RoutedTemplate states |
| GlobalReportRepository.DefaultGlobalReportRepository.GetRepositoryList | features/reporting/repository/src/main/java/org/opennms/features/reporting/repository/global/DefaultGlobalReportRepository.java:234-236 | returns the current list |
| GlobalReportRepository.DefaultGlobalReportRepository.AddReportRepository | features/reporting/repository/src/main/java/org/opennms/features/reporting/repository/global/DefaultGlobalReportRepository.java:244-246 | the new list is the old list with the repository appended; the other fields are unchanged |
| GlobalReportRepository.DefaultGlobalReportRepository.GetRepositoryById | features/reporting/repository/src/main/java/org/opennms/features/reporting/repository/global/DefaultGlobalReportRepository.java:255-265 | the first repository in list order with that id, or null |
| GlobalReportRepository.DefaultGlobalReportRepository.GetRepositoryForReport | features/reporting/repository/src/main/java/org/opennms/features/reporting/repository/global/DefaultGlobalReportRepository.java:273-276 | the routing as RepositoryForReport states, including the exception for ids without `_` |
| OutageFilter.Create | opennms-webapp/src/main/java/org/opennms/web/outage/filter/NegativeInterfaceFilter.java:44-50 | a null address throws IllegalArgumentException("Cannot take null parameters."); otherwise getIpAddress returns the address unchanged |
| OutageFilter.NegativeInterfaceFilter.Sql | opennms-webapp/src/main/java/org/opennms/web/outage/filter/NegativeInterfaceFilter.java:52-54 | the address, recoverable exactly, between `" (OUTAGES.IPADDR<>'"` and `"' OR OUTAGES.IPADDR IS NULL)"` |
| OutageFilter.OnePlaceholder | opennms-webapp/src/main/java/org/opennms/web/outage/filter/NegativeInterfaceFilter.java:56-58 | the parameterised SQL has exactly one `?` |
| OutageFilter.NegativeInterfaceFilter.ParamSql | opennms-webapp/src/main/java/org/opennms/web/outage/filter/NegativeInterfaceFilter.java:56-58 | exactly one `?`, standing alone between the fixed text around the address |
| OutageFilter.NegativeInterfaceFilter.BindParam | opennms-webapp/src/main/java/org/opennms/web/outage/filter/NegativeInterfaceFilter.java:60-63 | the count it reports equals the number of `?` placeholders in ParamSql |
| OutageFilter.NegativeInterfaceFilter.Description | opennms-webapp/src/main/java/org/opennms/web/outage/filter/NegativeInterfaceFilter.java:65-67 | `interfacenot=` followed by exactly the address |
| OutageFilter.NegativeInterfaceFilter.TextDescription | opennms-webapp/src/main/java/org/opennms/web/outage/filter/NegativeInterfaceFilter.java:69-71 | `interface is not ` followed by exactly the address |
| OutageFilter.NegativeInterfaceFilter.ToString | opennms-webapp/src/main/java/org/opennms/web/outage/filter/NegativeInterfaceFilter.java:73-75 | the description between `<OutageFactory.InterfaceFilter: ` and `>`; the address is recoverable from it |
| OutageFilter.NegativeInterfaceFilter.GetIpAddress | opennms-webapp/src/main/java/org/opennms/web/outage/filter/NegativeInterfaceFilter.java:77-79 | the stored address, exactly the one recovered from toString and from the SQL |
| OutageFilter.NegativeInterfaceFilter.Equals | opennms-webapp/src/main/java/org/opennms/web/outage/filter/NegativeInterfaceFilter.java:81-83 | an object equals the filter exactly when its toString text is the fixed wrapper around the filter's address |
| OutageFilter.EqualsIffSameAddress | opennms-webapp/src/main/java/org/opennms/web/outage/filter/NegativeInterfaceFilter.java:81-83 | two filters are equal exactly when their addresses are equal |
| OutageFilter.EqualsSymmetric | opennms-webapp/src/main/java/org/opennms/web/outage/filter/NegativeInterfaceFilter.java:81-83 | equality between filters is symmetric |

## Left out

- Logging, and the `Assert.notNull` checks whose failures are only logged.
- The JasperReports version read with `System.getProperty`. Remote repositories are given already built, so the version plays no part.
- The network behaviour of `DefaultRemoteRepository`. Each remote is given as the `Repo` it would present. Its construction failure is the configuration's `failure` position. A failing `getActiveRepositories()` or a null configuration DAO counts as position 0.
- A null local repository, which the source would add to the list as null (and later dereference). It is not modelled.
- Null report ids and repository ids (a `NullPointerException` in the source).
- The repositories' own answers for report ids they do not know. Those implementations are not part of this model. Here they are "" for the string attributes and null for the template.
- The contents of template streams, which are opaque values.
- `GetRepositoryList` returns a copy of the list, not the live `List` the source exposes. Aliasing through it is not modelled.
- The unused `getRemoteReportRepository`/`setRemoteReportRepository` pair.
- OutageFilter.NegativeInterfaceFilter.BindParam: the `PreparedStatement.setString` side effect is not modelled; only the returned count is.
- OutageFilter.NegativeInterfaceFilter.Equals: the other object is given by its `toString()` text. A null argument (a `NullPointerException` in the source) is not modelled.
- The neighbouring OpenNMS classes `DataSourceFactoryBean`, `DefaultProcessorFactory`, `TextSystemReportFormatter`, `CalendarEntry` and `ChooseResourceModel` are not modelled: they wire framework objects, write to streams, or only hold values.

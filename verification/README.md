# RNB open-data publication, modelled in Dafny

This project models the decision and string logic of the per-area publication of the
national building registry (RNB) on data.gouv.fr, as implemented in
`app/batid/services/data_gouv_publication.py`. An *area* is either `"nat"` (the whole
country) or a department code. For each area the workflow:

1. creates a timestamped scratch directory;
2. exports the area's buildings to `RNB_{area}.csv`;
3. zips the CSV into `RNB_{area}.csv.zip` and computes the archive's size and SHA-1 digest;
4. uploads the archive with a multipart part size chosen to stay under the provider's
   1000-part ceiling;
5. looks up the area's resource on the portal and updates it, or creates it if absent;
6. removes the scratch directory.

The files follow the components of that source file:

- `wrappers.dfy`: `Option`, `Result` and a substring predicate.
- `areas.dfy`: the national area identifier `"nat"`, shared by every step.
- `naming.dfy`: the directory name, the file paths and the archive entry name.
- `extraction.dfy`: which department join and which department filter the export query carries.
- `archival.dfy`: the chunked SHA-1 loop of `sha1sum`, over a 128 KiB byte buffer refilled by
  `readinto`, and what `create_archive` reports.
- `upload.dfy`: the multipart part-size arithmetic.
- `portal.dfy`: resource titles, the scan of the dataset's resource list, and the
  create-or-update dispatch. It also has a model of how the portal applies a successful
  write, used to state idempotence.
- `tasks.dfy`: the task-queue signature chosen for an area, and the rejection of unknown areas.
- `orchestrator.dfy`: the `publish` loop. It works over a `FileSystem` object whose set of
  directories the loop changes. The pipeline steps are abstract actions that may fail.

Inputs that the source reads from the outside world are parameters here:

- the clock readings that name directories and timestamp portal calls;
- the bytes the zip library produced;
- the SHA-1 function;
- the portal's answers: the dataset listing and the status of a create or an update;
- the list of department codes;
- for each area, which pipeline step (if any) raises.

## Model

| member | source | states |
|---|---|---|
| `Naming.DirectoryName` | app/batid/services/data_gouv_publication.py:44-49 | the scratch directory's name starts with `datagouvfr_publication_`, carries the area followed by `_` right after that prefix, and ends with the clock reading |
| `Naming.DirectoryNamesDistinct` | app/batid/services/data_gouv_publication.py:44-49 | two runs whose clock readings have the same width get the same scratch directory only if area and reading are both equal |
| `Naming.FilePath` | app/batid/services/data_gouv_publication.py:52-54 | the path starts with the directory followed by `/RNB_`, and what follows is exactly the area: no extension |
| `Naming.ArchiveEntryName` | app/batid/services/data_gouv_publication.py:137 | the archive entry is `RNB_`, the area, then `.csv` |
| `Naming.CsvPath` | app/batid/services/data_gouv_publication.py:114 | the CSV is the archive entry's name, directly inside the directory |
| `Naming.ArchivePath` | app/batid/services/data_gouv_publication.py:134 | the archive path is the CSV path with `.zip` appended |
| `Naming.ArchivePathsDistinct` | app/batid/services/data_gouv_publication.py:134 | distinct areas never share an archive path in the same directory |
| `Extraction.SqlQuery` | app/batid/services/data_gouv_publication.py:57-63 | `"nat"` gets neither department join nor department filter; any other area gets both, the join on `batid_department_subdivided` and a filter whose code is that area |
| `Extraction.JoinText` | app/batid/services/data_gouv_publication.py:57-63 | the join text is empty exactly when the shape has no department join, and otherwise contains the name of the joined table |
| `Extraction.WhereText` | app/batid/services/data_gouv_publication.py:57-63 | the where text is empty exactly when the shape has no department filter, and the department code read back from it is the shape's filter |
| `Extraction.QueryFragments` | app/batid/services/data_gouv_publication.py:57-104 | the text spliced into the query is empty for `"nat"` only; otherwise the join text names the department table, and the filter's code read back from the where text is the area |
| `Upload.PartSize` | app/batid/services/data_gouv_publication.py:170-173 | the part size is at least 1 and is floor(1.2 × size / 1000) whenever that is at least 1 |
| `Upload.PartsNeeded` | app/batid/services/data_gouv_publication.py:169-174 | the number of parts of a given size that cover the archive, which the MAX_PARTS comment at :169-171 budgets for: the least such count |
| `Upload.PartCount` | app/batid/services/data_gouv_publication.py:169-174 | the number of parts of the computed size that cover the archive, which the MAX_PARTS comment at :169-171 budgets for: the least such count, at least one for a non-empty archive, and within 1000 exactly when 1000 parts of that size cover the archive |
| `Upload.PartsWithinIff` | app/batid/services/data_gouv_publication.py:169-173 | the part count stays within a limit exactly when the limit times the part size covers the archive |
| `Upload.SmallArchivesWithinLimit` | app/batid/services/data_gouv_publication.py:169-173 | archives of at most 1000 bytes stay within 1000 parts |
| `Upload.LargeArchivesWithinLimit` | app/batid/services/data_gouv_publication.py:169-173 | archives of 4167 bytes or more stay within 1000 parts |
| `Upload.PartLimitExceededExactly` | app/batid/services/data_gouv_publication.py:169-173 | the 1000-part ceiling is exceeded exactly for sizes 1001-1666, 2001-2499, 3001-3333 and 4001-4166 |
| `Upload.SmallArchiveExceedsLimit` | app/batid/services/data_gouv_publication.py:173 | a 1500-byte archive gets part size 1 and 1500 parts |
| `Upload.PartSizeRoundedUp` | app/batid/services/data_gouv_publication.py:173 | the rounded-up part size is at least 1 and is the least value of at least 1 that is ≥ 1.2 × size / 1000 |
| `Upload.RoundedUpWithinLimit` | app/batid/services/data_gouv_publication.py:169-173 | with the rounded-up part size every archive fits in 1000 parts |
| `Archival.BinaryFile.Open` | app/batid/services/data_gouv_publication.py:126 | a freshly opened file reads from its first byte |
| `Archival.BinaryFile.ReadInto` | app/batid/services/data_gouv_publication.py:127 | `readinto` copies the next bytes of the file to the front of the buffer and returns their count; it returns 0 only at end of file |
| `Archival.Sha1Sum` | app/batid/services/data_gouv_publication.py:122-129 | the chunks fed to the hash are non-empty, at most 128 KiB each, and concatenate to the whole file, so the hex digest equals the single-pass digest of the content |
| `Archival.CreateArchive` | app/batid/services/data_gouv_publication.py:132-145 | the reported path is the CSV path plus `.zip`; the size is the archive's byte count; the digest is that of the archive's bytes |
| `Portal.Title` | app/batid/services/data_gouv_publication.py:197-204 | only `"nat"` gets the national title `Export National`; any other area's title is `Export Départemental ` followed by exactly the area |
| `Portal.Description` | app/batid/services/data_gouv_publication.py:197-204 | only `"nat"` gets the national description; any other area's description is the departmental sentence with exactly the area before its final period |
| `Portal.TitlesDistinct` | app/batid/services/data_gouv_publication.py:197-204 | no two areas share a resource title |
| `Portal.Matches` | app/batid/services/data_gouv_publication.py:278-284 | the scan accepts a resource exactly when its format is `zip` and its title is the one publication gives the area |
| `Portal.FindResource` | app/batid/services/data_gouv_publication.py:277-286 | the lookup finds nothing exactly when no resource matches; otherwise it finds the id of the first matching resource |
| `Portal.ResourceId` | app/batid/services/data_gouv_publication.py:265-286 | a fetch status other than 200 raises; otherwise the scan returns the first matching id, or nothing |
| `Portal.ResourcePayload` | app/batid/services/data_gouv_publication.py:243-256 | the body describes a main, remote resource with the archive's url, size and a `sha1` checksum of its digest, and the area's description; a resource listed with its title and format is accepted by the scan for the same area |
| `Portal.SuccessStatus` | app/batid/services/data_gouv_publication.py:259-260 | a create succeeds on 201 only and an update on 200 only (the update's check is at line 333) |
| `Portal.Dispatch` | app/batid/services/data_gouv_publication.py:206-228 | the write is an update of the found id when the lookup found one, and a create otherwise; both carry the same body |
| `Portal.PublishOnDataGouv` | app/batid/services/data_gouv_publication.py:192-230 | a failed fetch raises with no write; otherwise exactly one write is made, with the area's title, format `zip` and a `sha1` checksum. It is dispatched on the lookup, and it succeeds exactly when the portal answers 201 to a create or 200 to an update |
| `Portal.CreatedResourceFound` | app/batid/services/data_gouv_publication.py:219-228 | after a create, the next lookup for the area finds the created resource, the only match in the list |
| `Portal.UpdatedResourceFound` | app/batid/services/data_gouv_publication.py:206-217 | after an update, the next lookup for the area finds the same resource again |
| `Portal.PublishFindsItsResource` | app/batid/services/data_gouv_publication.py:195-228 | after a publication, a lookup finds the area's resource carrying the new url, size and checksum. A create adds exactly one match to a list that had none; an update, which is what the next publication of the same area is, adds no resource |
| `Tasks.GetAreaPublishTask` | app/batid/services/data_gouv_publication.py:343-355 | `"nat"` yields the national task with no arguments; a listed department code yields the departmental task with `[area]`; anything else is rejected with a message containing the area |
| `Tasks.SignatureAreaRoundTrip` | app/batid/services/data_gouv_publication.py:343-351 | every signature handed out publishes exactly the area asked for, and only `"nat"` or a listed department gets one |
| `Orchestrator.FileSystem.MakeDirectory` | app/batid/services/data_gouv_publication.py:48 | `mkdir` succeeds exactly when the directory is absent, and adds it |
| `Orchestrator.FileSystem.RemoveTree` | app/batid/services/data_gouv_publication.py:339-340 | `rmtree` succeeds exactly when the directory exists, and removes it |
| `Orchestrator.Attempt` | app/batid/services/data_gouv_publication.py:22-32 | an area's pipeline goes through exactly when no step is made to fail and its directory does not exist yet; a step after `mkdir` can only fail once the directory was created |
| `Orchestrator.PublishArea` | app/batid/services/data_gouv_publication.py:23-40 | one area's iteration leaves the set of directories as it found it. Its trace is the directory's creation then removal, or nothing when `mkdir` raised |
| `Orchestrator.Publish` | app/batid/services/data_gouv_publication.py:18-41 | the loop's outcome and directory trace are those of `Run`, and it leaves the set of directories unchanged |
| `Orchestrator.Run` | app/batid/services/data_gouv_publication.py:22-41 | the loop with the corrected cleanup: only a pipeline step's error is ever raised; each area adds at most a creation and a removal to the trace, and a run that returns True created and removed one directory per area |
| `Orchestrator.RunSucceeds` | app/batid/services/data_gouv_publication.py:22-41 | when no area fails, publish returns True after creating and removing each area's directory, in list order |
| `Orchestrator.RunFailsAt` | app/batid/services/data_gouv_publication.py:22-40 | in `Run`, the loop with the corrected cleanup: when area i fails first, the run re-raises area i's error. Earlier areas went through in order, area i's directory (if created) is removed, and later areas are not touched |
| `Orchestrator.ReturnsTrueIffAllSucceed` | app/batid/services/data_gouv_publication.py:22-41 | publish returns True exactly when every area's pipeline went through |
| `Orchestrator.RunCleansUp` | app/batid/services/data_gouv_publication.py:38-40 | on every outcome, the directory trace is a sequence of creations each immediately followed by the removal of the same directory |
| `Orchestrator.RunAsWritten` | app/batid/services/data_gouv_publication.py:22-40 | the loop as written: a step error it propagates is never the `mkdir` error, the unbound-name error arises only before any directory was bound and with nothing created, and each area adds at most a creation and a removal to the trace |
| `Orchestrator.AsWrittenAgreesWithoutCreateFailure` | app/batid/services/data_gouv_publication.py:22-40 | where no `mkdir` fails, the code as written behaves as `Run` |
| `Orchestrator.AsWrittenMasksCreateFailure` | app/batid/services/data_gouv_publication.py:22-40 | when `mkdir` fails first, the code as written raises an unbound-name error (first area) or a missing-directory error for the previous area's directory, never the `mkdir` error |
| `Orchestrator.FirstAreaCreateFailure` | app/batid/services/data_gouv_publication.py:24 | a one-area run whose `mkdir` fails raises the unbound-name error where the `mkdir` error is intended |

## Findings

| source | as written | input that shows it | evidently intended | confidence | as-written member | corrected member |
|---|---|---|---|---|---|---|
| app/batid/services/data_gouv_publication.py:173 | the part size truncates 1.2 × size / 1000, then raises it to 1 | an archive of 1500 bytes gets part size 1, hence 1500 parts, above the 1000-part ceiling the comment at :169 names; all sizes in 1001-1666, 2001-2499, 3001-3333 and 4001-4166 exceed it | a part size that keeps every upload within 1000 parts, that is, rounded up | medium, not executed; the storage client's own minimum part size and multipart threshold are not part of this model and may hide it in practice | `Upload.SmallArchiveExceedsLimit` | `Upload.RoundedUpWithinLimit` |
| app/batid/services/data_gouv_publication.py:24 | the `finally` at :40 removes whatever `directory_name` names, even when `create_directory` raised | a first area whose `mkdir` raises: `directory_name` is unbound, and the cleanup's error replaces the `mkdir` error. On a later area, it names the previous area's directory, which is already removed | clean up only a directory this iteration created, and propagate the original error | high, not executed | `Orchestrator.AsWrittenMasksCreateFailure` | `Orchestrator.Publish` |

## Left out

- Database extraction: the PostGIS query semantics (coverage ratio, address and plot aggregation, the `is_active` filter), the `COPY` to the CSV file and the 48-hour statement timeout are foreign database behaviour. Only the choice of join and filter is modelled.
- The SQL text interpolates the area unescaped. The filter code is modelled as text; what the database makes of an area containing a quote is not modelled.
- Zip compression, file reads and the SHA-1 algorithm: the archive's bytes and the digest function are parameters.
- The S3 client, the multipart transfer itself, the object-exists waiter, the bucket path and the public URL format are cloud SDK behaviour. The URL is an input to the portal step.
- HTTP calls to the portal, the API key header and the `created_at` / `analysis:last-modified-at` timestamps. The fetch answer, the write status and the clock reading are inputs.
- Portal.Apply: how the portal applies a successful write (append with a fresh id, or overwrite in place) is an assumption about the portal, used only by the idempotence lemmas.
- Upload.PartCount: the storage client's multipart threshold (below which it sends one PUT) and its minimum part size are not modelled; the count is ceil(size / part_size) for the part size the code computes.
- Upload.PartSize: computed exactly as `archiveSize * 6 / 5000`, not in binary floating point as `archive_size * 1.2 / MAX_PARTS` is.
- Orchestrator.RunFailsAt: it states the behaviour of `Run`, the corrected loop. When `mkdir` fails, the code as written raises the cleanup's error instead of area i's error; `Orchestrator.RunAsWritten` and `Orchestrator.AsWrittenMasksCreateFailure` state that behaviour.
- Orchestrator.Publish: it cleans up only the directory created in the same iteration, the corrected behaviour of the Findings table. The behaviour as written is `Orchestrator.RunAsWritten`.
- Orchestrator.Publish: the pipeline steps between `mkdir` and the cleanup are abstract. Which one raises is an input per area; they do not change the set of directories. Logging and `print` are not modelled.
- Portal.PublishOnDataGouv: only the default `format="zip"` is modelled; the payload's format is always `zip`. The only call, at line 32, passes no format. A resource published with any other format would never be found by the scan, which looks for `zip` at line 278.
- The default `format=zip` of `update_resource_metadata` (line 297) is the builtin `zip`, not the string. It is unreachable, since the only call passes the format explicitly. It is not modelled.
- Environment variables (credentials, endpoint, dataset id, base URL, API key) and `dpts_list`, which is not part of this model. The department list is a parameter.
- The email, admin, migration, app-configuration and KPI-test files of the repository are outside this model.

The code truncates the part size (`int(...)`), whereas rounding it up would keep every upload within the 1000-part ceiling. The model follows the code and records the difference as a finding.

# Decision logic of the CANcloud storage console

The console is a browser front end for an S3-compatible object store. Most of
it is glue: form events call the backend, and the backend's answers update a UI
store. This project lifts out the small, sequential decisions buried in that
glue and states them as total Dafny functions over strings, integers and
sequences:

- **Login form** (`src/browser/js/browser/Login.js`):
  - which message `handleSubmit` shows, given the order of its checks and that the last assignment wins;
  - when it rewrites an AWS endpoint from `http://` to `https://`;
  - when the login request is issued, and with which credentials;
  - how an uploaded configuration file fills the credential fields, including the AWS endpoint pattern and the "ends in `com`" rule.
- **Object list** (`src/browser/js/objects/actions.js`):
  - the sort-order toggle;
  - the presigned-link expiry;
  - the pseudo-progress counter of a deletion, and the list entry the deletion removes;
  - zip entry naming;
  - the total size of a bulk download and its large-download threshold;
  - the size statistics of a logging session.
- **Bucket filter** (`getVisibleBuckets`): specified by its tests in `src/browser/js/buckets/__tests__/selectors.test.js`.

Files and modules:

| file | module | contents |
|---|---|---|
| `optional.dfy` | `Optional` | `Option` |
| `strings.dfy` | `Strings` | JavaScript `substring`, `includes`, `split(c)[0]`, `replace`, integer printing |
| `js.dfy` | `Js` | JavaScript scalars: truthiness, loose `== 0`, `String(v)` |
| `seqs.dfy` | `Seqs` | `Filter`, subsequence, `Sum` |
| `login.dfy` | `Login` | the login form |
| `objects.dfy` | `Objects` | the object-list actions |
| `buckets.dfy` | `Buckets` | the bucket filter |

Inputs that the source takes from the environment become parameters:

- `location.protocol` is the `pageProtocol` argument.
- The sort functions of the utilities module are a `Sorter` argument.
- The log-file test `isValidLogfile` is an `isLogfile` argument.

The backend call is represented by the credentials it would be sent. The deletion timer is represented by a count of ticks.

## Model

| member | source | states |
|---|---|---|
| Login.AwsEndpointIsPattern | src/browser/js/browser/Login.js:32-35 | the string test accepts exactly the URLs of the form `http://` or `https://`, then `s3.`, then characters from `[-a-z0-9]`, then `.amazonaws.com` |
| Login.IsAwsEndpoint | src/browser/js/browser/Login.js:32-35 | the `awsEndpoint` test read from both ends: a scheme prefix, then `s3.` + region + `.amazonaws.com`; `AwsEndpointIsPattern` proves it equal to the regular expression |
| Login.AwsUrlIsAwsEndpoint | src/browser/js/browser/Login.js:32-35 | every URL assembled from a scheme and a region passes the test |
| Login.AwsEndpointIsUrl | src/browser/js/browser/Login.js:32-35 | every endpoint that passes the test splits into a scheme and a region |
| Login.AwsHostOfRegion | src/browser/js/browser/Login.js:33 | `s3.` + region + `.amazonaws.com` passes the host part of the pattern |
| Login.AwsHostRegion | src/browser/js/browser/Login.js:33 | a host that passes is made of a valid region between `s3.` and `.amazonaws.com` |
| Login.AwsEndpointEndsInCom | src/browser/js/browser/Login.js:88-94 | every AWS endpoint ends in `com`, so the configuration's `com` rule never applies to one |
| Login.BareAwsEndpointsAreNotAws | src/browser/js/browser/Login.js:165-172 | the two region-less endpoints the form warns about do not match the AWS pattern |
| Login.SchemeTests | src/browser/js/browser/Login.js:198-200 | `substring(0,5) == "http:"` and `substring(0,6) == "https:"` are exactly prefix tests, short strings included |
| Login.AutoAdjusts | src/browser/js/browser/Login.js:175-179 | the rewrite branch is taken exactly when the endpoint starts `http:`, the page protocol is `https:` and the endpoint is AWS |
| Login.AdjustEndpoint | src/browser/js/browser/Login.js:181 | an endpoint starting `http://` becomes `https://` + the rest; one without `http://` anywhere is unchanged |
| Login.AdjustEndpointResult | src/browser/js/browser/Login.js:181 | on an AWS endpoint starting `http:`, the rewrite yields `https://` + the rest, which is still AWS and no longer starts `http:` |
| Login.ValidationMessage | src/browser/js/browser/Login.js:155-206 | the last-assignment-wins chain equals the priority order bucket > scheme > mixed protocol > region-less AWS > secret key > access key; an empty bucket always yields "Bucket Name is required"; a missing scheme yields the scheme message unless the bucket is empty; "End point cannot be empty" is never the final message; the message is empty exactly when every check passes |
| Login.MessageText | src/browser/js/browser/Login.js:157-205 | the text `handleSubmit` assigns for each refusal, verbatim |
| Login.Submit | src/browser/js/browser/Login.js:175-219 | no request iff the message is non-empty, and then the last alert is exactly that message, after at most the info notice; an accepted form gets the info notice exactly when the endpoint was rewritten and no other alert; the AWS branch rewrites the form's endpoint and shows the info notice first; on an https page a request never carries an `http:` endpoint |
| Login.SubmitAsWritten | src/browser/js/browser/Login.js:181-219 | same alerts, form and refusal as `Submit`, but the request carries the endpoint as typed |
| Login.StaleEndpointSent | src/browser/js/browser/Login.js:180-219 | for every filled-in form with an AWS `http://` endpoint on an https page, the form is rewritten to `https://` with only the info notice, but the request as written goes out with the old `http:` endpoint |
| Login.StaleEndpointExample | src/browser/js/browser/Login.js:32-35 | `http://s3.eu-west-1.amazonaws.com` is an AWS `http://` endpoint, so the finding applies to it |
| Login.LoginFailureMessage | src/browser/js/browser/Login.js:224-233 | the failure alert is the error plus the F12 hint for a non-AWS endpoint, and the error plus the F12 hint and the region/CORS advice for an AWS one |
| Login.FailureHintSurvivesRewrite | src/browser/js/browser/Login.js:225 | the rewritten endpoint gets the same failure hint as the endpoint that was typed |
| Login.ServerOf | src/browser/js/browser/Login.js:73-76 | a server section exists exactly when `connect`, `connect.s3` and `connect.s3.server` all exist |
| Login.ConfigEndpoint | src/browser/js/browser/Login.js:88-94 | an AWS endpoint is kept verbatim; another endpoint not ending in `com` gets `:` + port; otherwise the endpoint is empty |
| Login.FormFromServer | src/browser/js/browser/Login.js:82-103 | the four credential fields come from the server section, a missing field becoming "", the endpoint going through the AWS/`com` rule, and the chosen file name is kept |
| Login.LoadConfig | src/browser/js/browser/Login.js:71-115 | an alert is raised iff there is no server section or the key format is not loosely 0, and then the form is unchanged and the alert is an info: the missing-server notice without a server section, the encrypted-key notice otherwise; otherwise the form is the one filled from the server section |
| Login.SchemelessRefused | src/browser/js/browser/Login.js:196-209 | a form naming a bucket whose endpoint starts with neither `http:` nor `https:` is refused with the scheme message and sends nothing |
| Login.LoadedMissingEndpointRefused | src/browser/js/browser/Login.js:82-94 | a server section without an endpoint fills in `:` + port, which submitting refuses with the scheme message |
| Login.LoadedComEndpointRefused | src/browser/js/browser/Login.js:88-94 | a non-AWS endpoint ending in `com` is blanked, so submitting the loaded form is refused with the scheme message |
| Login.LoadedAwsConfigLogsIn | src/browser/js/browser/Login.js:88-90 | a server section with an AWS endpoint, both keys and a bucket keeps the endpoint verbatim and leads to a login request on any page protocol |
| Js.Truthy | src/browser/js/browser/Login.js:82-86 | `v ? … : …`: `undefined`, `null`, `false`, `0` and `""` are falsy, everything else truthy |
| Js.ToText | src/browser/js/browser/Login.js:93 | `String(v)` keeps a string, gives `undefined`, `null`, `true`, `false` for the other scalars, and prints a number as a minus sign exactly when negative followed by decimal digits without a leading zero (except `0` itself) that read back as its magnitude |
| Js.TextOrEmpty | src/browser/js/browser/Login.js:83 | a falsy port contributes "", a truthy one its text |
| Js.TrimStart | src/browser/js/browser/Login.js:81 | drops exactly the leading white space (the string conversion behind loose `==`) |
| Js.TrimEnd | src/browser/js/browser/Login.js:81 | drops exactly the trailing white space |
| Js.Trim | src/browser/js/browser/Login.js:81 | the result is the slice of the input that starts right after its leading white space and is followed only by white space, and it neither starts nor ends with white space |
| Js.LooseEqualsZero | src/browser/js/browser/Login.js:81 | `keyformat == 0`: a boolean or a trimmed string is converted to a number first, `null` and `undefined` never equal 0 |
| Js.LooseZeroOfNumberText | src/browser/js/browser/Login.js:81 | for every integer n, the string `String(n)` is loosely 0 exactly when n is 0 |
| Js.NonZeroNumberText | src/browser/js/browser/Login.js:81 | the text of a non-zero integer starts with `-` or a non-zero digit and has no decimal point |
| Js.LooseZeroScalars | src/browser/js/browser/Login.js:81 | `0`, `false` and `""` are loosely 0; `1`, `true`, `null` and `undefined` are not |
| Js.LooseZeroPadded | src/browser/js/browser/Login.js:81 | `" 0 "` is loosely 0 |
| Js.SignedZero | src/browser/js/browser/Login.js:81 | a `+` or `-` sign in front of an unsigned zero literal keeps the text zero |
| Js.LooseZeroSignedDecimal | src/browser/js/browser/Login.js:81 | `"-0.0"` is loosely 0 |
| Js.LooseZeroRejectsText | src/browser/js/browser/Login.js:81 | `"0a"` is not loosely 0 |
| Strings.Substring | src/browser/js/browser/Login.js:176 | in-range indices select that slice, and reversed indices are swapped |
| Strings.SubstringPrefixTest | src/browser/js/browser/Login.js:176 | comparing the first \|p\| characters with `p` is exactly a prefix test |
| Strings.SubstringSuffixTest | src/browser/js/browser/Login.js:91 | comparing `substring(length - 3)` with `com` is exactly a suffix test; a shorter string never passes |
| Strings.IndexOf | src/browser/js/browser/Login.js:181 | the first occurrence of the pattern, with no earlier one; nothing when there is no occurrence |
| Strings.ReplaceFirst | src/browser/js/browser/Login.js:181 | `replace` with a string pattern: only the first occurrence is replaced, everything before and after it is kept; no occurrence, no change |
| Strings.ReplaceFirstAtStart | src/browser/js/browser/Login.js:181 | a string beginning with the pattern has exactly that copy replaced |
| Strings.ReplaceFirstAbsent | src/browser/js/browser/Login.js:181 | without an occurrence, `replace` changes nothing |
| Strings.NatToDecimal | src/browser/js/browser/Login.js:93 | non-empty, all digits, with a leading zero only for 0, which prints as exactly `0` |
| Strings.DecimalRoundTrip | src/browser/js/browser/Login.js:93 | reading back the printed digits gives the number printed |
| Strings.IntToDecimal | src/browser/js/browser/Login.js:93 | a minus sign exactly for negative numbers, followed by decimal digits without a leading zero (except `0` itself) that read back as the magnitude |
| Strings.ContainsIff | src/browser/js/objects/actions.js:505 | the scanning `includes` holds exactly when some window equals the pattern |
| Strings.Contains | src/browser/js/objects/actions.js:505 | `includes`, computed by trying every start position; `ContainsIff` proves it equal to "some window equals the pattern" |
| Strings.ContainsChar | src/browser/js/objects/actions.js:505 | `includes("/")` is membership of `/` |
| Strings.BeforeFirst | src/browser/js/objects/actions.js:506 | `split("/")[0]` is a prefix without `/`, followed in the input by `/` when shorter |
| Strings.BeforeFirstOfSeparated | src/browser/js/objects/actions.js:506 | the part before the first separator ignores what follows it |
| Strings.ReplaceAll | src/browser/js/objects/actions.js:845 | same length; every `/` becomes `_`, every other character stays |
| Objects.NextSortOrder | src/browser/js/objects/actions.js:201 | choosing the current column flips the order; choosing another column makes it ascending |
| Objects.SortOrderToggleTwice | src/browser/js/objects/actions.js:201 | choosing the same column twice restores the previous order |
| Objects.SortedList | src/browser/js/objects/actions.js:205-218 | a key other than name, size or last-modified leaves the list exactly unchanged |
| Objects.SortObjects | src/browser/js/objects/actions.js:198-220 | the new order is the negation for the same key and ascending for a new one; an unknown key keeps the list; marker and truncation flag reach `setList` unchanged |
| Objects.SortObjectsAsWritten | src/browser/js/objects/actions.js:219 | the sort key, new order and sorted list are those of the corrected `SortObjects`; with three arguments, `setList` receives the marker as `err`, the truncation flag as `marker`, and no `isTruncated` |
| Objects.SortForgetsTruncation | src/browser/js/objects/actions.js:219 | sorting a truncated listing as written yields an action whose `isTruncated` is undefined |
| Objects.ShareExpiry | src/browser/js/objects/actions.js:573 | the expiry is a whole number of minutes, and not negative for non-negative inputs |
| Objects.ExpiryParts | src/browser/js/objects/actions.js:573 | splits seconds into days, hours under 24 and minutes under 60 |
| Objects.ExpiryRoundTrip | src/browser/js/objects/actions.js:573 | days, hours (< 24) and minutes (< 60) are recovered from the expiry |
| Objects.ExpiryMonotone | src/browser/js/objects/actions.js:573 | a longer lifetime in any unit never shortens the expiry |
| Objects.ProgressTick | src/browser/js/objects/actions.js:490-495 | a tick keeps the counter a multiple of 10 within 0..80, never decreases it, and leaves it unchanged exactly at 80 and above |
| Objects.ProgressAfter | src/browser/js/objects/actions.js:486-495 | starting from 0, any number of ticks leaves the counter a multiple of 10 no greater than 80 |
| Objects.ProgressAfterClosedForm | src/browser/js/objects/actions.js:486-495 | after n ticks the counter is min(10n, 80) |
| Objects.ProgressMonotone | src/browser/js/objects/actions.js:490-495 | more ticks never report less |
| Objects.DeleteReports | src/browser/js/objects/actions.js:485-510 | the i-th report while pending is the counter after i+1 ticks; reported values never decrease and stay at most 80 while pending; a confirmed removal adds 100 last |
| Objects.RemovalKey | src/browser/js/objects/actions.js:505-509 | a name with `/` removes its first segment + `/`; any other name removes itself; the key is a prefix of the name |
| Objects.RemovalKeyIdempotent | src/browser/js/objects/actions.js:505-509 | the key of a key is the key itself |
| Objects.RemovalKeySameFolder | src/browser/js/objects/actions.js:505-506 | objects under the same top-level folder remove the same entry |
| Objects.ZipEntryName | src/browser/js/objects/actions.js:843-846 | every `/` of the object name becomes `_`; the name is prefixed with bucket + `_` unless the bucket is `Home`; no `/` survives when the bucket has none |
| Objects.ZipEntryNamesCollide | src/browser/js/objects/actions.js:845 | `a/b` and `a_b` get the same entry name |
| Objects.ZipArchiveName | src/browser/js/objects/actions.js:852 | the archive name is the bucket name followed by exactly `.zip` |
| Objects.ZipEntries | src/browser/js/objects/actions.js:840-848 | every non-empty blob has its entry, and every entry comes from a non-empty blob |
| Objects.TotalQueueSize | src/browser/js/objects/actions.js:801-809 | the left-to-right reduction equals the sum of all stat sizes; the warning fires exactly above 150000000 bytes |
| Objects.LargeDownloadWarning | src/browser/js/objects/actions.js:809-818 | a warning exactly above the threshold, showing the total rounded to the nearest megabyte |
| Objects.QueueTotals | src/browser/js/objects/actions.js:826-830 | entry 0 carries the download's whole total and every other entry 0, so the entries add up to the total |
| Objects.LogFiles | src/browser/js/objects/actions.js:313 | exactly the log files, each as often as it is listed, in listing order |
| Objects.SizeRange | src/browser/js/objects/actions.js:326-335 | for a non-empty list, lowest and highest are sizes in the list bounding every size, and the total is the sum; for an empty one they are the two infinities and the total is 0 |
| Objects.SessionSizeStats | src/browser/js/objects/actions.js:307-335 | the count is the number of log files; for a non-empty set, lowest and highest are sizes of log files bounding all their sizes, and the sizes add up to the total |
| Seqs.Filter | src/browser/js/objects/actions.js:313 | keeps exactly the elements satisfying the test, with their multiplicities and in order |
| Seqs.SubsequenceOfItself | src/browser/js/buckets/__tests__/selectors.test.js:29-32 | every list is a subsequence of itself, the case of the empty filter |
| Seqs.SumAppend | src/browser/js/objects/actions.js:801-807 | the left fold and the head-first sum agree |
| Buckets.VisibleBuckets | src/browser/js/buckets/__tests__/selectors.test.js:29-37 | an empty filter returns the list unchanged; otherwise exactly the buckets containing the filter, with multiplicities, as a subsequence of the list |
| Buckets.VisibleExactly | src/browser/js/buckets/__tests__/selectors.test.js:34-37 | a listed bucket is shown iff it contains the filter |
| Buckets.NoFilterShowsAll | src/browser/js/buckets/__tests__/selectors.test.js:29-32 | the first test's expectation |
| Buckets.TestBucketsContaining | src/browser/js/buckets/__tests__/selectors.test.js:36 | "TEST1" and "TEST11" contain "TEST1" and "TEST22" does not |
| Buckets.FilterKeepsMatches | src/browser/js/buckets/__tests__/selectors.test.js:34-37 | the second test's expectation |

## Findings

| source | as written | input that shows it | evidently intended | confidence | as-written member | corrected member |
|---|---|---|---|---|---|---|
| src/browser/js/objects/actions.js:219 | `setList(list, objects.marker, objects.isTruncated)` against the four parameters `(objects, err, marker, isTruncated)` of `setList` | a listing with `isTruncated` true, sorted by name: the action has `marker` = true and `isTruncated` undefined (`Objects.SortForgetsTruncation`) | marker and truncation flag passed in their own places, with no error | not executed; high | Objects.SortObjectsAsWritten | Objects.SortObjects |
| src/browser/js/browser/Login.js:181-219 | the rewritten endpoint is stored with `setState`, which React applies only after the event handler returns, and `web.Login` reads `this.state.endPoint` | any AWS `http://` endpoint, e.g. `http://s3.eu-west-1.amazonaws.com`, page protocol `https:`, all fields filled: the notice says https is used, but the request goes to `http://` (`Login.StaleEndpointSent`, `Login.StaleEndpointExample`) | the request carries the rewritten `https://` endpoint | not executed; likely (relies on React deferring `setState` inside event handlers) | Login.SubmitAsWritten | Login.Submit |

The rest of the model uses the corrected members.

## Left out

- Backend and library I/O is not modelled: the `web.*` calls, axios downloads and cancel tokens, JSZip archive generation, `saveAs`, and router history pushes.
- React rendering, `document`, `FileReader` and `setInterval` timing are not modelled. The deletion timer is a count of ticks.
- Other thunks and action creators in objects/actions.js are not modelled: `fetchObjects`, `selectPrefix`, `selectPathPrefix`, `directoryObjects`, `deleteCheckedObjects`, `previewObject`, `downloadObject`, `downloadCheckedObjects`, `fetchObjectStat`, and the plain action creators. These are outside the modelled core, and their own naming and routing decisions are not modelled: the prefix stripping and append/set/empty-folder choice of `fetchObjects` (src/browser/js/objects/actions.js:149-172), the name `directoryObjects` deletes (448-462), the folder/object split of `deleteCheckedObjects` (533) and the `Home` file-name rule of `downloadObject` (669-672).
- The sort functions, `removeFirstOccurence`, `pathSlice` and `isValidLogfile` live in the utilities module, which is not part of this model. The sort functions and the log-file test are parameters.
- The selectors module that defines `getVisibleBuckets` is not part of this model. `Buckets.VisibleBuckets` is written from the behaviour its tests assert.
- The objects reducer is not part of this model. `Objects.SortObjects` states the dispatched actions, not the resulting store.
- The alert reducer is not part of this model. `Login.Submit` lists the alerts in the order they are shown.
- `listSessionMeta` steps that are not modelled:
  - rounding to megabytes and hours with `toFixed`, which is floating point;
  - Moment date parsing, formatting and differences, which is a date library;
  - the first/last object metadata requests and their timestamps, which are network calls.
- `JSON.parse` is not modelled. A configuration file is an already-parsed record, and a file that does not parse is out of scope.
- Login.ServerOf: the source tests each of `connect`, `connect.s3` and `connect.s3.server` for truthiness, not presence; a section that is present but not a record cannot be represented. In JavaScript `"server": false` gives the missing-server notice, and `"server": 1` gives the encrypted-key notice because its `keyformat` is undefined.
- Login.LoadConfig: the four text fields of the server section are strings or absent; a non-string value there is not modelled. The `try`/`catch` around `setState`, which reports through `onFilesError`, is not modelled because `setState` with a plain record does not throw.
- Js.LooseEqualsZero: strings in exponent, hexadecimal, octal or binary notation (`"0e1"`, `"0x0"`) are treated as not equal to 0, although JavaScript converts them to 0. Objects and arrays as the key format are not modelled.
- Js.ToText: numbers are integers. JavaScript prints numbers from 10^21 up in exponent form, and fractional numbers and NaN are not modelled.
- Objects.ShareExpiry: JavaScript numbers are doubles. Fractional inputs and the precision limit above 2^53 are not modelled, and neither is the text of the success alert.
- Objects.TotalQueueSize: sizes are exact integers. JavaScript loses precision above 2^53 bytes.
- Objects.LargeDownloadWarning: rounds half up on exact integers, which is what `Math.round` does for totals below 2^53. The rest of the warning text is not modelled.
- Objects.DeleteReports: when the removal fails, the source never clears the timer. The model represents this as a run of tick values only, with no end.
- The demo-mode initial credentials, the news banner and the file-name field update in Login.js are not modelled. They are presentation only.

# DocuSign Batch Downloader — a Dafny model

The DocuSign Batch Downloader is a command-line tool. It logs a user in to DocuSign and lists the envelopes an
options record selects. It saves each unpurged envelope's documents to a file and writes an HTML report of the
run. This project models the core of the tool and proves properties of that model:

- **Credentials** (`credentials.dfy`, from `AuthInfo.cs`): the credential record and its validity rule. A
  credential is valid if its access token is non-empty, its base URI is absolute and its account id is a GUID.
- **Authentication** (`authentication.dfy`, `login_trace.dfy`, from `Authentication.cs`): the login, written as
  a function from everything the login observes to its result and a trace of the effects it causes, in order.
  - A cached credential is reused while it is fresh and valid.
  - Otherwise the tool runs the OAuth 2.0 authorization-code grant (section 4.1 of RFC 6749). It builds the
    authorization URL and the browser command, starts the loopback listener and then the browser, and captures
    the code the redirect carries. It exchanges the code for a token, fetches the user profile, validates the
    new credential and writes the cache file.
  - The lemmas show that:
    - the cache is written exactly when a fresh login succeeds;
    - the listener always starts before the browser;
    - a token is requested only after a non-empty code has come back;
    - a login succeeds exactly when every check after the redirect passes;
    - each failure leaves the trace its error path leaves.
  - `FormEncoding` is an independent reader of `name=value&...` strings. The lemmas use it to show what the
    authorization URL and the token-request body say to a server, and what they say when the client id is not
    escaped.
- **Console colour markup** (`color_console.dfy`, from `ColorConsole.cs`): the tokenizer that turns
  `text<green>phrase</green>` into coloured segments.
  - `Parse` is the index-walking loop, proved equal to a recursive meaning `Markup`.
  - The lemmas cover plain text, the pending text each tag flushes, and the three errors and where each arises.
  - They also prove a round trip: rendering a well-formed document and parsing it back gives its text and its
    colours.
- **Downloads** (`downloads.dfy`, from `Program.cs` lines 65-75 and 87-179):
  - the unpurged-envelope filter;
  - the saved-file naming: invalid characters stripped, a `.pdf`/`.zip` suffix dropped, the extension chosen,
    and per-base counters for repeated names;
  - the download loop: the per-envelope result it records and the fail-on-first-error exit;
  - the final success flag.

  The document service and the file system are inputs. For each envelope the model is given what fetching its
  documents and reading the saved file back produced.
- **Report** (`report.dfy`, from `Report.cs`): the result records, their size-based verification, and the
  structure of the HTML report. The report is modelled as sections made of rows and cells, with their corner
  classes and failure marks. The model covers which sections appear, the configuration rows with the client id
  and secret obscured, the results rows and the errors rows.

`Text` holds the string primitives the source gets from .NET: first occurrence, `IndexOf` from a position, and
decimal printing. `Platform` holds the library routines the model leaves undefined: absolute-URI and GUID
parsing, base64 of UTF-8 and the invalid file-name characters. They are passed in as function values, so every
property holds whatever those routines do. `Configuration` is the `config.json` record.

The download loop never marks a result verified. The verification routine `ReportEnvelopeResult.Verify`
exists, and is modelled, but the loop never calls it. So every downloaded envelope is recorded with an
exception: the one reading the saved file back raised, or otherwise "File cannot be verified.". A run that
processes at least one envelope always ends as failed (`Downloads.RunDownloads`). With fail-on-first-error set,
the loop therefore always stops after the first envelope (`Downloads.DownloadAll`).

A fresh cache file that cannot be read or parsed raises an exception, and the login fails; it is not treated as
a missing cache (`LoginTrace.UnreadableFreshCacheFails`). A cache file that holds the JSON literal `null`, or an
invalid credential, does fall through to a fresh login.

## Model

| member | source | states |
|---|---|---|
| Credentials.EmptyAuthInfo | AuthInfo.cs:5-10 | a new credential has all six fields empty |
| Credentials.ValidIffThreeChecks | AuthInfo.cs:12-23 | valid if and only if the token is non-empty, the base URI parses as absolute and the account id parses as a GUID |
| Credentials.EmptyTokenInvalid | AuthInfo.cs:17 | an empty access token makes any credential invalid |
| Credentials.DisplayFieldsIrrelevant | AuthInfo.cs:14-19 | user name, account name and e-mail do not affect validity |
| Credentials.EmptyAuthInfoInvalid | AuthInfo.cs:5-20 | the default credential is never valid |
| Authentication.AuthorizationUrlBounds | Authentication.cs:32 | the authorization URL starts with the OAuth base followed by `/auth?` and ends with the redirect URI |
| Authentication.ParameterNamesPlain | Authentication.cs:32 | the fixed parameter names and values hold no `=` or `&`, and `/auth` holds no `?` |
| Authentication.AuthorizationUrlQuery | Authentication.cs:32 | the first `?` of the URL follows `/auth`, and what follows it is exactly the four-parameter query |
| Authentication.AuthorizationUrlParameters | Authentication.cs:32 | read by an independent query reader, the URL gives `response_type=code`, `scope=signature`, the client id and the redirect URI, and nothing for any other key |
| Authentication.UnescapedClientIdOverridesRedirect | Authentication.cs:32 | a client id holding `&redirect_uri=b` makes the URL carry the redirect URI `b` to a first-match reader |
| Authentication.InjectedQuery | Authentication.cs:32 | a client id holding `&redirect_uri=b` puts a second `redirect_uri` parameter ahead of the configured one |
| Authentication.ChromiumArgumentsShape | Authentication.cs:36-43 | the Edge/Chrome arguments start with the private flag exactly when private browsing is on, and end with ` --new-window "url"` |
| Authentication.FirefoxArgumentsShape | Authentication.cs:44-46 | the Firefox arguments start with `-private-window` exactly when private browsing is on, are `--new-window "url"` otherwise, and always end with the quoted URL |
| Authentication.BrowserLaunch | Authentication.cs:34-50 | the launch fails exactly for a browser other than edge, chrome and firefox, with the unsupported-browser error naming it |
| Authentication.BrowserArguments | Authentication.cs:34-47 | for each supported browser: private flag at the head if and only if private browsing is on, quoted URL at the end, `--new-window` before it except for private Firefox |
| Authentication.ExecutablesDistinct | Authentication.cs:37-45 | edge launches `msedge`, chrome `chrome`, firefox `firefox` |
| Authentication.ListenerPrefix | Authentication.cs:55 | the listener prefix is the redirect URI with one `/` appended unless it already ends in `/` |
| Authentication.ListenerPrefixIdempotent | Authentication.cs:55 | normalizing the prefix a second time changes nothing |
| Authentication.FreshnessBoundary | Authentication.cs:13-14 | a cache file written exactly at the expiry instant is stale; one written one unit later is fresh |
| Authentication.FreshnessMonotone | Authentication.cs:14 | a file written later than a fresh one is fresh too |
| Authentication.MakeTokenRequest | Authentication.cs:94-97 | the token request uses Basic authorization and a form-encoded body |
| Authentication.TokenRequestBodyParameters | Authentication.cs:97 | the body read as a form gives `grant_type=authorization_code` and the code, and nothing else |
| Authentication.TokenNamesPlain | Authentication.cs:97 | the token-request parameter names and the grant type hold no `=` or `&` |
| Authentication.BasicUserPassRoundTrip | Authentication.cs:96 | splitting the Basic credential at its first `:` gives back the client id and the secret when the id holds no `:` |
| FormEncoding.SplitUserPass | Authentication.cs:96 | the reference splitter: the part before the first `:` and the rest, or nothing when there is no `:` |
| Authentication.FromProfile | Authentication.cs:112-120 | the new credential takes the token, the first account's id, base URI and name, and the profile's name and e-mail |
| Authentication.Authenticate | Authentication.cs:10-131 | every credential the login returns is valid |
| Authentication.Login | Authentication.cs:28-131 | every credential a fresh login returns is valid |
| Authentication.Launched | Authentication.cs:51-131 | every credential returned once the browser command is chosen is valid |
| Authentication.Awaited | Authentication.cs:53-85 | the trace up to the redirect has four effects, none a token request or a cache write |
| Authentication.Redeem | Authentication.cs:87-130 | the trace extends the one before; it ends in the cache write exactly on success; no listener or browser is started; the token is requested first, and only once, exactly when the code is non-empty |
| LoginTrace.RedeemWritesOnlyOnSuccess | Authentication.cs:87-130 | after the redirect, the cache is written if and only if the login succeeds |
| LoginTrace.LoginWritesOnlyOnSuccess | Authentication.cs:28-130 | a fresh login writes the cache if and only if it succeeds, and then the write is its last effect and holds the returned credential |
| LoginTrace.LaunchedWritesOnlyOnSuccess | Authentication.cs:51-130 | the same, once the browser command is chosen |
| LoginTrace.CacheWrittenIffFreshLogin | Authentication.cs:12-130 | the cache is written if and only if the login succeeds without a usable cache, and then last and with the returned credential |
| LoginTrace.CacheHit | Authentication.cs:14-25 | a fresh valid cache is returned as is, and only the report's user fields are set |
| LoginTrace.CacheHitTouchesNothing | Authentication.cs:14-25 | a cache hit writes nothing, starts no process and requests no token |
| LoginTrace.StaleCacheIgnored | Authentication.cs:13-14 | a stale cache file leads to a fresh login whatever it holds |
| LoginTrace.UnreadableFreshCacheFails | Authentication.cs:16-17 | a fresh cache file that cannot be read or parsed fails the login with that exception and no effect |
| LoginTrace.UnusableCacheLogsIn | Authentication.cs:14-28 | a cache that is not usable, and not an unreadable fresh file, leads to a fresh login |
| LoginTrace.UnsupportedBrowserStartsNothing | Authentication.cs:48-49 | an unsupported browser fails the login before anything is started |
| LoginTrace.ListenerStartsFirst | Authentication.cs:54-74 | whenever a process is touched, the first effect is starting the listener on the normalized prefix, and the browser is started only as the second effect |
| LoginTrace.LoginStartsListenerFirst | Authentication.cs:54-74 | the same for a fresh login |
| LoginTrace.LaunchedStartsListenerFirst | Authentication.cs:54-74 | the same once the browser command is chosen |
| LoginTrace.TokenRequestedAfterRedirect | Authentication.cs:76-98 | a token request happens only after the listener, the browser, the listener stop and the browser kill, with a non-empty code, and only once |
| LoginTrace.LaunchedTokenRequest | Authentication.cs:76-98 | the same once the browser command is chosen |
| LoginTrace.EmptyCodeRequestsNoToken | Authentication.cs:88-89 | with no code no token is requested; the login can succeed only from the cache; after the redirect it fails with the missing-code error |
| LoginTrace.ReachedRedirectRedeems | Authentication.cs:76-130 | once the redirect is reached, the outcome is the exchange after the four waiting effects |
| LoginTrace.RedeemSucceedsIffChecksPass | Authentication.cs:87-130 | the exchange succeeds if and only if the code, token, profile, validity and write checks all pass, and then returns the profile credential with the full success trace |
| LoginTrace.LoginSucceedsIffChecksPass | Authentication.cs:87-130 | the same for the whole login once the redirect is reached |
| LoginTrace.NoAccessTokenFails | Authentication.cs:99-101 | a null token reply or an empty token fails with "Unable to get access token." right after the token request |
| LoginTrace.NoUserInfoFails | Authentication.cs:107-110 | a null profile or one with no account fails with "Unable to get user info." right after the profile request |
| LoginTrace.InvalidNewCredentialFails | Authentication.cs:122-127 | an invalid new credential fails the login after the report's user fields are set, and nothing is written |
| LoginTrace.WriteFailureFails | Authentication.cs:129 | a failing cache write fails the login with that exception, and the cache counts as not written |
| ColorConsole.ColorOf | ColorConsole.cs:8-16 | a tag name has a colour exactly when it is one of the six supported names |
| ColorConsole.Name | ColorConsole.cs:8-16 | every colour has a supported tag name that maps back to it |
| ColorConsole.TagNamesPlain | ColorConsole.cs:8-16 | no supported tag name holds `<` or `>` |
| ColorConsole.Closer | ColorConsole.cs:72 | the closing tag starts with `<` and is three characters longer than the name |
| ColorConsole.Flush | ColorConsole.cs:88-89 | the pending text gives a segment only when it is non-empty |
| ColorConsole.TagName | ColorConsole.cs:57-66 | a tag name always leaves a strictly shorter rest |
| ColorConsole.TagNameFails | ColorConsole.cs:58-61 | with no `>` left, reading a tag name fails: out of range at the end of the message, otherwise the invalid-format error |
| ColorConsole.TagNameSplit | ColorConsole.cs:57-66 | the tag name is the text up to the first `>` and reading goes on right after it |
| ColorConsole.Parse | ColorConsole.cs:41-92 | the tokenizer loop computes exactly the recursive meaning of the message, errors included |
| ColorConsole.ReadColored | ColorConsole.cs:52-84 | reading a tag yields the pending segment, then the coloured phrase up to the first closing tag, and the index of that tag's `>`; a failure is the failure of the meaning |
| ColorConsole.ReadColorName | ColorConsole.cs:57-66 | the name up to the first `>` and its index, or the error reading it raises |
| ColorConsole.ReadPhrase | ColorConsole.cs:76-81 | the phrase is the message between the two indices |
| ColorConsole.PlainPrefix | ColorConsole.cs:47-50 | text without `<` only adds to the pending text |
| ColorConsole.PlainMessage | ColorConsole.cs:47-91 | a message without `<` is a single uncoloured segment, or none when it is empty |
| ColorConsole.TagFlushesPending | ColorConsole.cs:53-55 | a tag always first emits the text before it as an uncoloured segment, even when that text is empty |
| ColorConsole.TaggedFlushes | ColorConsole.cs:54 | the result after a tag always starts with the pending segment |
| ColorConsole.UnsupportedColorFails | ColorConsole.cs:68-70 | an unknown tag name fails with the unsupported-colour error naming it |
| ColorConsole.NoClosingTagFails | ColorConsole.cs:72-74 | a supported tag with no closing tag after it fails with the no-closing-tag error |
| ColorConsole.UnterminatedTagFails | ColorConsole.cs:58-61 | a `<` with no `>` after it fails: out of range when it ends the message, invalid format otherwise |
| ColorConsole.ColoredSegment | ColorConsole.cs:72-84 | text, a tag, a phrase and the first closing tag give the uncoloured and coloured segments, then the meaning of the rest |
| ColorConsole.ScanColored | ColorConsole.cs:72-84 | the same from the `<` on, with any pending text |
| ColorConsole.FirstCloser | ColorConsole.cs:72 | a phrase without `<` ends at the first closing tag after it |
| ColorConsole.ScanRender | ColorConsole.cs:41-92 | rendering a well-formed document and reading it gives its text and its coloured phrases after the pending text |
| ColorConsole.RoundTrip | ColorConsole.cs:41-92 | parsing a rendered well-formed document succeeds and gives back its text and its coloured phrases in order |
| Text.FindFromFirst | ColorConsole.cs:72 | the search finds the first occurrence at or after the start, or reports that there is none |
| Text.FindFirst | ColorConsole.cs:72 | the search finds the first occurrence, and none exactly when the pattern does not occur |
| Text.IndexOfFirst | ColorConsole.cs:72-74 | `IndexOf` from a position gives the first occurrence at or after it, or -1 when there is none |
| Text.NatStringInjective | Program.cs:132-133 | distinct counters print differently |
| Text.IntString | Report.cs:232 | a printed integer is non-empty and starts with `-` exactly when it is negative |
| Downloads.Unpurged | Program.cs:69-71 | the kept envelopes are exactly those with no purge state, an empty one, or `unpurged` |
| Downloads.UnpurgedAppend | Program.cs:69-71 | filtering distributes over concatenation, so the listing order is kept |
| Downloads.SelectEnvelopes | Program.cs:65-75 | no listing or a zero result-set size fails with "No envelopes were found." and sets no counts; otherwise both counts are set, and an empty unpurged list fails with "No unpurged envelopes found" |
| Downloads.EntriesFollowListing | Program.cs:65-179 | when the attempts are the selected envelopes in order, the k-th recorded entry has the id and subject of the k-th unpurged envelope of the listing, and a full run records as many entries as there are unpurged envelopes |
| Downloads.StripInvalid | Program.cs:118 | the stripped subject keeps its other characters and holds no invalid one, and a subject with none is unchanged |
| Downloads.StripInvalidAppend | Program.cs:118 | stripping distributes over concatenation |
| Downloads.Extension | Program.cs:119 | the extension is `.pdf` exactly in combined mode, otherwise `.zip` |
| Downloads.BaseName | Program.cs:120-123 | a `.pdf` or `.zip` suffix is dropped; any other name is kept |
| Downloads.SuffixesShareBase | Program.cs:120-123 | `x.pdf` and `x.zip` give the same base name `x` |
| Downloads.SubjectsShareCounter | Program.cs:118-123 | subjects that differ only in a `.pdf`/`.zip` suffix share one name counter |
| Downloads.NumberedInjective | Program.cs:132-133 | different counters give different numbered names |
| Downloads.SavedNamesDistinct | Program.cs:125-134 | the first and the numbered names of one base all differ |
| Downloads.FileNameRegistry.constructor | Program.cs:87 | the counter dictionary starts empty |
| Downloads.FileNameRegistry.Claim | Program.cs:125-134 | a new base is saved as itself plus the extension with its counter at 0; a known base takes the next number and its counter goes up by one; no other counter changes |
| Downloads.Naming | Program.cs:125-134 | one name per download attempt |
| Downloads.NamingCounts | Program.cs:125-134 | a base has a counter exactly when it has occurred, and the counter is its number of occurrences less one |
| Downloads.NamingNames | Program.cs:125-134 | the k-th saved name is the base alone at its first occurrence, otherwise its base numbered by the earlier occurrences; a failed fetch has no name |
| Downloads.NamesDistinctPerBase | Program.cs:125-134 | two attempts with the same base never get the same name |
| Downloads.SavedNamesCanCollide | Program.cs:125-134 | subjects `a`, `a(1)`, `a` are all saved, the last two as `a(1).pdf`: names of different bases can collide |
| Downloads.DownloadOne | Program.cs:90-166 | a failed fetch records the exception with sizes 0 and no name, and leaves the counters alone; a fetched envelope claims the next name and records the response size, the read-back size or exception, and the verification failure |
| Downloads.RecordAttempt | Program.cs:88-168 | one pass appends one fresh result, recorded as above and always carrying an exception, advances the naming by one attempt, and leaves the report's other fields alone |
| Downloads.DownloadLoop | Program.cs:88-172 | every processed attempt is recorded, in order, after the existing results, under the names the counters give; with fail-on-first-error the loop stops after the first entry with an exception, which is the first attempt; the report's other fields stay |
| Downloads.DownloadAll | Program.cs:87-172 | the loop's records; the loop exits early exactly when fail-on-first-error is set and there is an envelope, and then the report is failed with no overall exception; the user, date and count fields stay |
| Downloads.MarkSucceeded | Program.cs:176-179 | the run succeeds exactly when every recorded result is verified; the results, the overall exception and the user, date and count fields stay |
| Downloads.RunDownloads | Program.cs:87-179 | the attempts are recorded, in order and under the counters' names, after the existing results; a run with at least one envelope always ends as failed; with no envelope, success is whether every earlier result was verified; the early exit happens exactly with fail-on-first-error and an envelope; the user, date and count fields stay |
| Report.ReportEnvelopeResult.constructor | Report.cs:18-26 | a new result is unverified, with no exception, empty strings and zero sizes |
| Report.ReportEnvelopeResult.Verify | Report.cs:28-32 | sets the verified flag when the file is non-empty and the size difference is within the allowance; never clears it; changes nothing else |
| Report.ReportDetails.constructor | Report.cs:5-16 | a new report is not succeeded, with no results and no overall exception |
| Report.ShowsAppend | Report.cs:37-56 | a section is shown by a concatenation if and only if one of its parts shows it |
| Report.StatusPart | Report.cs:182-196 | the status cell reads SUCCESS in green or FAILED in red, following the succeeded flag |
| Report.ObscureMostOfString | Report.cs:212-222 | the same length, the first five characters kept and every later one replaced by `*` |
| Report.SetOptions | Report.cs:237-242 | exactly the options with a non-empty value are listed |
| Report.ConfigEntries | Report.cs:224-242 | client id and secret obscured, then the eight settings in order, then the set options |
| Report.ConfigRow | Report.cs:202-210 | a name and a value cell; only the last row carries the bottom corners |
| Report.ConfigRows | Report.cs:244-252 | one row per entry in order; only the final row is cornered |
| Report.BuildConfigPart | Report.cs:198-271 | row i is the config row of the i-th entry, cornered only when last; the entries are the Client ID and the Client Secret, both obscured, then the eight settings under their names in order, then the set options; the Client ID and Client Secret rows show their values obscured |
| Report.EnvelopesPart | Report.cs:273-292 | a two-row table of the total and unpurged counts, the second row cornered |
| Report.ResultRow | Report.cs:296-308 | the six cells show id, name, sizes, file name and the flag; the row is marked failed exactly when unverified; corners only when last |
| Report.ResultRows | Report.cs:310-312 | one row per result; a row is marked failed exactly when its result is unverified; with distinct results only the final row is cornered |
| Report.LastObjectIsLastIndex | Report.cs:312 | among distinct results, being the last object means being at the last index |
| Report.BuildResultsPart | Report.cs:294-334 | row i of the results table is the result row of result i (id, original name, response size, saved name, saved size, verified flag), cornered when its result is the same object as the last; marked failed exactly when unverified; with distinct results only the final row is cornered |
| Report.WithException | Report.cs:375 | every listed result has an exception, every result with an exception is listed, and no object is repeated |
| Report.WithExceptionAppend | Report.cs:375 | the filter distributes over concatenation, so the listed results keep their order |
| Report.ErrorRow | Report.cs:364-372 | shows the envelope id and the exception message; corners only when last |
| Report.ErrorRowsAsWritten | Report.cs:374-376 | the corner of an errors row is decided by comparing it with the last of all results |
| Report.UncorneredErrorRowExample | Report.cs:374-376 | with two results of which only the first has an exception, the only errors row gets no corners |
| Report.ErrorRows | Report.cs:374-376 | one row per failed result with its id and message; only the final errors row is cornered |
| Report.BuildErrorsPart | Report.cs:336-394 | no errors table exactly when there is no overall exception and no result has one; an overall exception gives the one-message table; otherwise row i shows the envelope id and the exception message of the i-th result that carries an exception, in order, and with distinct results only the final row is cornered |
| Report.OptionalConfigPart | Report.cs:50 | the configuration table appears exactly when there is a configuration |
| Report.OptionalRunParts | Report.cs:51-52 | the envelopes and results tables appear exactly when there is no overall exception |
| Report.OptionalErrorsPart | Report.cs:53 | the errors table appears exactly when there is an overall exception or a result has one |
| Report.ShowsOnly | Report.cs:50-53 | a part that can only be one table shows that table exactly when it is present |
| Report.ReportParts | Report.cs:39-56 | the report shows each optional table exactly when its part is present |
| Report.BuildReport | Report.cs:37-57 | styles, title and status come first; the configuration table exactly with a configuration; envelopes and results exactly without an overall exception; errors exactly when there is an exception to show |

## Left out

- The HTTP listener, its callback and the polling wait are left out. The model is given the code the redirect carried, or an exception starting the listener or the browser.
- Authentication.Awaited: the unbounded wait of the polling loop when no redirect ever arrives (Authentication.cs:76-79), and exceptions from `listener.Stop`, `listener.Close` and `browserProcess.Kill` (Authentication.cs:82-85), are outside the model; it treats the teardown as always returning. Login inherits both gaps.
- The HTTP exchanges and JSON (de)serialization are left out. The model is given the replies, already decoded: the token, the profile, a JSON `null`, or an exception.
- The file system and the clock are parameters: the cache file's last-write time and contents, the current time, the result of writing the cache, and each envelope's fetch and read-back results.
- `Uri.TryCreate`, `Guid.TryParse`, base64 of UTF-8 and `Path.GetInvalidFileNameChars` are left undefined. They are function values and a set given to the model.
- Console output is not modelled. This covers `WriteMarkedUpString`, the colour resets, the progress messages, and the report process that opens the page.
- `TokenExpiration` is a number of hours (a double) in the source. The model uses one integer time unit, the same as the clock readings, and does not model converting hours to that unit.
- Text.IndexOf: models `IndexOf` and `EndsWith` as ordinal comparisons, because the source's culture-sensitive comparison depends on the machine's culture.
- `Process.Kill`, which is not guaranteed to close the browser window when another instance of the same browser is open, is modelled as one `BrowserKilled` effect.
- The account list of the profile is never null in the model. An absent `accounts` key gives an empty list. An explicit `"accounts": null` makes the count check throw `NullReferenceException`; the model covers that case as an `Unreadable` reply, which fails the login with the exception.
- Percent-encoding is not part of the model, since the source does none: the client id, the redirect URI and the code are put into the URL and the body as they are.
- `EnvelopeOptions` is read by reflection in the source. The model gives it as a list of (property name, printed value) pairs, with "" for an unset value. Reflection does not fix the order of the properties, so the model takes any order as given.
- `Dictionary.Add` throws when a key is added twice. This cannot happen here: the properties of the envelope-listing options have camel-case names that start with a lower-case letter (`fromDate`, `status`, ...), while every fixed key starts with an upper-case one. The model keeps a list and does not model the throw.
- The literal HTML and style sheet, and the printing of sizes and flags, are not modelled. Cells hold a string, an integer or a flag, and `DateTime` printing of the run date is an input string.
- Report.ReportEnvelopeResult.Verify: sizes are unbounded integers, so the 64-bit overflow of `ResponseSize - FileSize` and `Math.Abs` raising on `long.MinValue` are not modelled.
- The pause between downloads (`Thread.Sleep`) is not modelled.
- The start-up steps of `Program.cs` are not part of this model: reading `config.json`, preparing the download directory, and the envelope query through `DSController.cs`. The same goes for `PrintAndOpenReport` writing the page and `FailForOverallException` ending the process. The model records only the flags the early exit sets.
- Config.cs defaults are not part of this model; the configuration is any record.
- DownloadOne: reading `responseStream.Length`, splitting a null e-mail subject, and creating and copying the saved file (Program.cs:116-145) are outside every `try`. A failure there ends the process with no later envelope and no report. The model's attempts describe only the outcomes the source handles, so it does not model that crash.
- ObscureMostOfString: counts Unicode scalar values, while the source counts UTF-16 code units. A character outside the Basic Multilingual Plane is one `char` in the model but two in the source, so among the first five it is kept whole here and may be split in half there.
- Report.BuildErrorsPart: builds the errors rows with the corrected corner rule of `Report.ErrorRows` (see Findings), not the source's comparison with the last of all results. So are `Report.OptionalErrorsPart` and `Report.BuildReport`, which use it. The as-written rule is modelled by `Report.ErrorRowsAsWritten`.

## Findings

| source | as written | input that shows it | evidently intended | confidence | as-written member | corrected member |
|---|---|---|---|---|---|---|
| Report.cs:376 | the bottom-corner classes go to the errors row whose result is the last of all results, not the last of the results with an exception | two results, only the first with an exception: the only errors row carries no bottom corners | the final row of the errors table is cornered, as in the other tables | not executed | Report.ErrorRowsAsWritten, Report.UncorneredErrorRowExample | Report.ErrorRows |

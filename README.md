# Job portal with natural-language GraphQL: a verified model

The job portal is a Flask and Ariadne GraphQL back end over MongoDB, with a React chat front end. Three kinds of user take part: job seekers (`user`), recruiters and admins.

- **GraphQL API.** It serves user profiles, job postings and applications. It also provides account registration and login, and skill-based recommendations.
- **Natural-language path.** A chat message is wrapped in a prompt and sent to an LLM. A GraphQL query is pulled out of the reply, and that query is either returned (dry run) or executed. The chat page then writes the query and its result into one Markdown-like message, and the `ResultDisplay` component parses that message back into sections.

This project models the decision logic of that core in Dafny and proves what it promises:

| module | file | what it models |
|---|---|---|
| `Wrappers`, `Errors` | wrappers.dfy | `Option`/`Result`, and the `ValueError`/`PermissionError`/`TypeError`/`KeyError` outcomes of the resolvers |
| `Strings` | strings.dfy | Python's `strip`/`split`/`splitlines`/`upper`, JavaScript's `trim`, plus substring search and splitting on a separator |
| `Nl2Gql` | nl2gql.dfy | `build_nl2gql_prompt` and `extract_graphql` (the odd-segment fence parser, as a function plus the loop method) |
| `Nl2GqlPipeline` | nl2gql.dfy | `process_nl2gql_request`: upstream outcomes, the out-of-scope rule, dry and live runs |
| `Documents` | documents.dfy | an in-memory document store standing in for MongoDB: filters, find, find-one, skip/limit, update-one/many, delete-one/many |
| `Validators` | validators.dfy | `require_non_empty_str`, `validate_date_str`, `clean_update_input` |
| `UserRepo`, `JobRepo` | user_repo.dfy, job_repo.dfy | output projections and query-filter builders |
| `Recommendation` | recommendation.dfy | `calculate_match_score`, the threshold loop and the stable descending sort |
| `Applications` | applications.dfy | the `applications` filter and the name parsing of `apply` |
| `Resolvers` | resolvers.dfy | pure steps of the resolvers: permission predicates, record builders, date normalisation, account lookup |
| `Portal` | portal.dfy | class `Store`: every user, job, application, auth and recommendation resolver as a method over the four collections and the id counters |
| `ResultDisplay` | result_display.dfy | `parseContent` (first-match regexes as a block search), the plain-text fallback, and the round trip with the chat page's message format |

Values are modelled as follows:

- A MongoDB document is a `map<string, Value>`. `Value` covers null, integers, strings and string lists.
- A filter maps each field to an equality, or to a case-insensitive regex that is kept symbolic (prefix, literal, suffix).
- Raised exceptions become `Failure` results. A resolver that fails leaves the store unchanged.
- The id counters are fields that each creation increments by one, so every new id is fresh.

## Model

| member | source | states |
|---|---|---|
| Nl2Gql.BuildPrompt | src/backend/services/nl2gql_service.py:16-40 | the prompt opens with the fixed instructions, names the INVALID sentinel, carries the schema verbatim right after the schema header, and ends with "User request:\n" followed by the user text |
| Nl2Gql.PromptLayout | src/backend/services/nl2gql_service.py:35-39 | how the prompt is assembled: instructions, schema header and schema, then the request after a blank line |
| Nl2Gql.SentinelInInstructions | src/backend/services/nl2gql_service.py:35 | the word INVALID occurs in the instructions at the sentinel rule |
| Nl2Gql.FirstLabelled | src/backend/services/nl2gql_service.py:46-50 | the first odd-indexed segment whose stripped form starts with "graphql"; every earlier odd segment is unlabelled |
| Nl2Gql.FirstNonBlank | src/backend/services/nl2gql_service.py:51-53 | the first odd-indexed segment that is not blank; every earlier odd segment is blank |
| Nl2Gql.Extract | src/backend/services/nl2gql_service.py:43-54 | the extracted query never has leading or trailing whitespace |
| Nl2Gql.ExtractGraphql | src/backend/services/nl2gql_service.py:43-54 | the two loops over odd segments, with their early returns, compute exactly Extract |
| Nl2Gql.ExtractIdempotent | src/backend/services/nl2gql_service.py:43-54 | extracting from an extraction changes nothing |
| Nl2Gql.ExtractUnfenced | src/backend/services/nl2gql_service.py:44-54 | text holding no triple-backtick fence comes back stripped, whatever single or double backticks it holds |
| Nl2Gql.ExtractLabelledBlock | src/backend/services/nl2gql_service.py:46-50 | a "graphql"-labelled fence yields its lines after the label line, joined by newlines and stripped |
| Nl2Gql.LabelLineKept | src/backend/services/nl2gql_service.py:48-50 | a fence that opens with a newline before "graphql" is recognised after strip, but splitlines drops only the empty first line, so the label stays in the result |
| Nl2Gql.OneLineLabelled | src/backend/services/nl2gql_service.py:50 | a labelled fence on a single line yields "" and does not fall back to later segments |
| Nl2Gql.BlankFencesKeepText | src/backend/services/nl2gql_service.py:51-54 | when every fenced segment is blank, the whole text comes back stripped, backticks included |
| Nl2Gql.SingleFence | src/backend/services/nl2gql_service.py:51-53 | an unlabelled fenced block yields its stripped body |
| Nl2Gql.FenceBlocks | src/backend/services/nl2gql_service.py:45 | a fenced block lands at odd index 1 of the split on "```" |
| Nl2Gql.QueryBlock | src/backend/services/nl2gql_service.py:48-50 | a label line followed by query lines is labelled, and its body is the query lines joined |
| Nl2Gql.NoneFoundAllBlank | src/backend/services/nl2gql_service.py:51-54 | no non-blank odd segment means every odd segment is blank |
| Nl2Gql.BlankNotLabelled | src/backend/services/nl2gql_service.py:46-53 | when every odd segment is blank, neither search finds one |
| Nl2Gql.StripKeepsOddPartsBlank | src/backend/services/nl2gql_service.py:54 | stripping a text whose odd segments are blank keeps them blank, which makes the fallback stable |
| Nl2Gql.LabelledBodyAbsent | src/backend/services/nl2gql_service.py:48-50 | a labelled body taken from a segment without fences has no fence |
| Nl2GqlPipeline.Generated | src/backend/services/nl2gql_service.py:73-79 | a generated text exists exactly for an ok JSON response; a body without "response" gives "" |
| Nl2GqlPipeline.ProcessRequest | src/backend/services/nl2gql_service.py:56-92 | timeout gives 504; transport error, non-ok status and non-JSON body give 502 with their messages; an empty or INVALID extraction gives 400 out of scope; a dry run gives 200 with the query; the executor runs exactly once, on {"query": gql}, and only in a live run past these checks; a non-empty unwrap result is returned as is, otherwise graphql and result with 200 on success and 400 on failure |
| Nl2GqlPipeline.RejectedExtracted | src/backend/services/nl2gql_service.py:81 | an extraction is out of scope exactly when it is empty or equals INVALID ignoring case |
| Nl2GqlPipeline.LowercaseSentinelRejected | src/backend/services/nl2gql_service.py:81 | "invalid" and "Invalid" are rejected like "INVALID" |
| Validators.RequireNonEmptyStr | src/backend/validators/common_validators.py:6-9 | fails with "<field> must be a non-empty string" exactly for None or blank input; otherwise returns the stripped value, which is non-empty and a fixed point of strip |
| Validators.RequirePadded | src/backend/validators/common_validators.py:7-9 | surrounding whitespace does not change the outcome |
| Validators.ValidateDateStr | src/backend/validators/common_validators.py:11-16 | None and "" give no date; any other string is accepted exactly when it matches the date pattern, and is returned unchanged; otherwise the date-format error |
| Validators.AnyPaddedDateAccepted | src/backend/validators/common_validators.py:4 | every zero-padded year-month-day passes, 2024-99-99 included: there is no calendar check |
| Validators.TrailingNewlineAccepted | src/backend/validators/common_validators.py:4 | a date followed by one newline passes, because `$` matches before a final newline, and the newline is kept |
| Validators.PaddedDateRejected | src/backend/validators/common_validators.py:14-15 | a date with a leading or trailing space is rejected |
| Validators.CleanUpdateInput | src/backend/validators/common_validators.py:18-19 | keeps exactly the entries whose value is not None, unchanged; the keys are a subset of the input's; a missing input gives {} |
| Validators.CleanIdempotent | src/backend/validators/common_validators.py:18-19 | cleaning twice equals cleaning once |
| Validators.CleanEmptyIffAllNull | src/backend/validators/common_validators.py:18-19 | the cleaned input is empty exactly when every value is None |
| Documents.Find | src/backend/repository/user_repo.py:33-40 | a document is found exactly when it is stored and matches the filter |
| Documents.FindAll | src/backend/repository/job_repo.py:32-40 | the empty filter finds every document, in store order |
| Documents.FindAppend | src/backend/repository/user_repo.py:33-40 | matches come back in store order, each stored match once: the matches of a concatenation are those of each part, in turn |
| Documents.FindOne | src/backend/repository/user_repo.py:42-44 | none exactly when nothing matches, otherwise the first match in store order |
| Documents.FindOneIsFirst | src/backend/repository/job_repo.py:42-44 | the first matching index agrees with the first element of the find |
| Documents.Page | src/backend/repository/user_repo.py:36-39 | skip, then limit, over the matches |
| Documents.SetFields | src/backend/repository/user_repo.py:49-56 | `$set`: the given fields overwrite, all others are kept |
| Documents.UpdateFirst | src/backend/repository/user_repo.py:49-56 | no match leaves the store as it is and returns none; otherwise only the first match changes, and the updated document is returned |
| Documents.UpdateSoleMatch | src/backend/repository/job_repo.py:50-57 | with exactly one match at index i, the store differs only at i |
| Documents.UpdateAll | src/backend/repository/user_repo.py:58-60 | every match gets the fields, the others are unchanged, and the store keeps its length |
| Documents.DeleteFirst | src/backend/repository/user_repo.py:62-64 | removes exactly the first match and reports 1, or reports 0 and changes nothing |
| Documents.DeleteAllAppend | src/backend/repository/user_repo.py:66-68 | the survivors keep store order: deleting from a concatenation deletes from each part, in turn, and the counts add up |
| Documents.DeleteAllSplits | src/backend/repository/user_repo.py:66-68 | survivors plus matches are the store as a multiset, so each survivor stays exactly as often as it was stored |
| Documents.UpdateAllCountsChanges | src/backend/repository/user_repo.py:58-60 | the count is modified_count: exactly the positions whose document changed |
| Documents.DeleteSoleMatch | src/backend/repository/job_repo.py:59-62 | with exactly one match, that document alone is removed |
| Documents.DeleteFirstKeepsOthers | src/backend/repository/user_repo.py:62-64 | a document that does not match survives a delete-one |
| Documents.DeleteAll | src/backend/repository/user_repo.py:66-68 | removes exactly the matches and reports how many there were |
| UserRepo.ToUserOutput | src/backend/repository/user_repo.py:6-17 | None for a missing or empty document; otherwise exactly the seven profile keys, each copied from the document or None |
| UserRepo.ToUserOutputIdempotent | src/backend/repository/user_repo.py:6-17 | projecting a projection changes nothing |
| UserRepo.ToUserOutputIgnoresExtra | src/backend/repository/user_repo.py:9-17 | keys outside the seven, such as `_id`, do not affect the output |
| UserRepo.NameFilterCi | src/backend/repository/user_repo.py:19-25 | a FirstName key exactly when a first name is given and a LastName key exactly when a last name is given, each an anchored case-insensitive pattern of the escaped name |
| UserRepo.NameFilterMatches | src/backend/repository/user_repo.py:19-25 | a profile matches exactly when each given name equals its field ignoring case |
| UserRepo.BuildFilter | src/backend/repository/user_repo.py:27-31 | the name filter, plus a DateOfBirth equality exactly when a date is given |
| UserRepo.BuildFilterEmpty | src/backend/repository/user_repo.py:27-31 | the filter is empty exactly when no argument is given |
| JobRepo.ToJobOutput | src/backend/repository/job_repo.py:6-19 | None for a missing or empty document; otherwise exactly the eight job keys copied from the document |
| JobRepo.ToJobOutputIgnoresExtra | src/backend/repository/job_repo.py:10-19 | keys outside the eight do not affect the output |
| JobRepo.BuildJobFilter | src/backend/repository/job_repo.py:21-30 | a key for each given argument only; company and location are anchored whole matches, title an unanchored substring match, all case-insensitive |
| JobRepo.JobFilterMatches | src/backend/repository/job_repo.py:21-30 | a job matches exactly when company and location equal and the title contains the given text, ignoring case |
| JobRepo.NoJobArguments | src/backend/repository/job_repo.py:21-30 | with no argument the filter is {} and selects every job |
| Recommendation.MatchScore | src/backend/resolvers/recommendation_resolvers.py:10-22 | always within 0..100, and 0 when the required list is None or empty |
| Recommendation.Percent | src/backend/resolvers/recommendation_resolvers.py:21-22 | the floor of 100·k/n: it is 100 exactly when k = n |
| Recommendation.DistinctCard | src/backend/resolvers/recommendation_resolvers.py:19 | a list has at most as many distinct skills as entries, with equality exactly when it has no repeats |
| Recommendation.FullCoverage | src/backend/resolvers/recommendation_resolvers.py:19-21 | covering every skill of a repeat-free required list scores 100 |
| Recommendation.RepeatsLowerCeiling | src/backend/resolvers/recommendation_resolvers.py:19-21 | a required list with repeats can never score 100 |
| Recommendation.MoreSkillsNoLower | src/backend/resolvers/recommendation_resolvers.py:19-21 | adding skills to the candidate never lowers the score |
| Recommendation.NoSkillsScoresZero | src/backend/resolvers/recommendation_resolvers.py:19-21 | a candidate without skills, None or empty, scores 0 |
| Recommendation.PercentMonotone | src/backend/resolvers/recommendation_resolvers.py:21-22 | more matches never give a lower percentage |
| Recommendation.Matched | src/backend/resolvers/recommendation_resolvers.py:46-53 | every kept document is stored and reaches the threshold, with its own score |
| Recommendation.MatchedAppend | src/backend/resolvers/recommendation_resolvers.py:46-53 | the kept documents follow the input order: the matches of a concatenation are those of each part, in turn |
| Recommendation.MatchedComplete | src/backend/resolvers/recommendation_resolvers.py:46-53 | every stored document that reaches the threshold is kept |
| Recommendation.CollectMatches | src/backend/resolvers/recommendation_resolvers.py:46-53 | the append loop computes exactly Matched |
| Recommendation.SortDescProps | src/backend/resolvers/recommendation_resolvers.py:56 | the sort by score, reverse and stable, is non-increasing, a permutation, and keeps the original order within each score |
| Recommendation.InsertDescSorted | src/backend/resolvers/recommendation_resolvers.py:56 | insertion keeps the list non-increasing |
| Recommendation.InsertDescCount | src/backend/resolvers/recommendation_resolvers.py:56 | insertion adds exactly the inserted element |
| Recommendation.InsertDescStable | src/backend/resolvers/recommendation_resolvers.py:56 | an inserted element goes after the equal scores already there |
| Recommendation.WithScoreAppend | src/backend/resolvers/recommendation_resolvers.py:56 | the elements of one score in a concatenation are those of the parts, in order |
| Recommendation.NoneWithScore | src/backend/resolvers/recommendation_resolvers.py:56 | a descending list topped by a lower score holds no element of a higher score |
| Recommendation.RankedMatches | src/backend/resolvers/recommendation_resolvers.py:46-56 | the ranking holds exactly the documents reaching the threshold, best first |
| Applications.ApplicationFilter | src/backend/resolvers/application_resolvers.py:14-25 | userId, jobId and status enter the filter exactly when each is truthy, each as an equality |
| Applications.ZeroIdIgnored | src/backend/resolvers/application_resolvers.py:17-18 | an id of 0 selects the same applications as no id |
| Applications.ParseUserName | src/backend/resolvers/application_resolvers.py:81-93 | fails with "User name cannot be empty." exactly for a blank name; otherwise the first whitespace-separated word of the stripped name is the first name, and the remaining words, when there are any, joined by single spaces, are the non-empty last name |
| Applications.BlankIffNoWords | src/backend/resolvers/application_resolvers.py:81-85 | a stripped name has no words exactly when the name is blank |
| Applications.JoinedWordsStripped | src/backend/resolvers/application_resolvers.py:88-90 | words joined by single spaces have no surrounding whitespace |
| Applications.ParseJoinedName | src/backend/resolvers/application_resolvers.py:81-93 | a name written as single-spaced words parses back to its first word and the rest as written |
| Applications.ParsePadded | src/backend/resolvers/application_resolvers.py:81-82 | surrounding whitespace does not change the parse |
| Resolvers.OrNone | src/backend/resolvers/user_resolvers.py:49-50 | a falsy title or summary is stored as None, a truthy one as given |
| Resolvers.NewUserFields | src/backend/resolvers/user_resolvers.py:46-57 | fails exactly for a blank first name, a blank last name or a malformed date, in that order and with those messages; on success the names are stripped and a date is stored only when it matches the pattern |
| Resolvers.CheckName | src/backend/resolvers/user_resolvers.py:74-77 | a name given and not None must be non-blank |
| Resolvers.NormalizeDate | src/backend/resolvers/user_resolvers.py:78-79 | an absent or None date leaves the input alone; "" becomes None; any other value must match the pattern and is kept; other keys are untouched |
| Resolvers.EmptyDateNotWritten | src/backend/resolvers/user_resolvers.py:78-85 | an empty date turns into None and is then dropped from the update |
| Resolvers.OnlyEmptyDateIsNoUpdate | src/backend/resolvers/user_resolvers.py:78-83 | an update that only clears the date has no fields and is refused |
| Resolvers.CheckDateArgument | src/backend/resolvers/user_resolvers.py:142-143 | a non-empty date argument must match the pattern |
| Resolvers.JobRecord | src/backend/resolvers/job_resolvers.py:35-47 | exactly the eight job keys; skillsRequired defaults to [] only when the key is absent |
| Resolvers.SkillsDefaultOnlyWhenAbsent | src/backend/resolvers/job_resolvers.py:44 | an explicit None skillsRequired is stored as None, not replaced by [] |
| Resolvers.IntOf | src/backend/repository/user_repo.py:44 | int() of a field value: an integer is itself; a string is read as a signed decimal literal after stripping, else ValueError "invalid literal for int() with base 10"; None and lists raise TypeError |
| Resolvers.IntOfRendered | src/backend/repository/user_repo.py:44 | round trip: the decimal rendering of any integer reads back as that integer |
| Resolvers.IntOfPadded | src/backend/repository/user_repo.py:44 | surrounding whitespace does not change whether or what int() reads from a string |
| Resolvers.PresentById | src/backend/resolvers/application_resolvers.py:62-65 | the lookup by a non-null id finds a non-empty record exactly when some stored record holds that id |
| Resolvers.ApplicationErrorCases | src/backend/resolvers/application_resolvers.py:58-65 | no error exactly when both ids convert with int() and a stored user and a stored job hold them; otherwise, in this order, int()'s error for the user id, "User with ID … does not exist.", int()'s error for the job id, "Job with ID … does not exist.", with the ids shown as given |
| Resolvers.StoredIdsPass | src/backend/resolvers/application_resolvers.py:114-116 | a stored user and a stored job with integer ids always pass the createApplication checks |
| Resolvers.FoundById | src/backend/resolvers/application_resolvers.py:62-65 | a stored document with an id is found by that id |
| Resolvers.AccountByEmail | src/backend/resolvers/auth_resolvers.py:14-15 | none exactly when no account has the email, otherwise an account with it |
| Resolvers.Authenticate | src/backend/resolvers/auth_resolvers.py:45-50 | fails with the one "Invalid email or password." message exactly when the email is unknown or the password check fails |
| Resolvers.AccountByEmailAppend | src/backend/resolvers/auth_resolvers.py:19-29 | a newly registered email finds the new account |
| Resolvers.RegisteredCanLogin | src/backend/resolvers/auth_resolvers.py:8-57 | after registering, the same email and password authenticate as the new account |
| Portal.UserOutputs | src/backend/resolvers/user_resolvers.py:37 | each stored profile projected, in order |
| Portal.JobOutputs | src/backend/resolvers/job_resolvers.py:24 | each stored job projected, in order |
| Portal.Scoredocs | src/backend/resolvers/recommendation_resolvers.py:52-53 | each ranked document carries its matchScore |
| Portal.Store.Users | src/backend/resolvers/user_resolvers.py:23-37 | refused before any lookup unless the caller is logged in as recruiter or admin; a malformed date is refused; otherwise the matching profiles after skip and limit |
| Portal.Store.UserById | src/backend/resolvers/user_resolvers.py:39-42 | None for an unknown id, never an error; otherwise the projected profile with that id |
| Portal.Store.CreateUser | src/backend/resolvers/user_resolvers.py:44-61 | on valid input, one profile with a fresh UserID is appended and nothing else changes; on invalid input nothing changes |
| Portal.Store.UpdateUser | src/backend/resolvers/user_resolvers.py:63-86 | only an admin or the owner; names checked but written as given; only non-None fields written; "No fields provided to update" when none are left; other collections unchanged |
| Portal.Store.UpdateUserByName | src/backend/resolvers/user_resolvers.py:88-112 | needs a name filter and a non-empty update; 0 matches and more than 1 are errors; with one match, only that profile changes |
| Portal.Store.UpdateUsersByName | src/backend/resolvers/user_resolvers.py:114-125 | every matching profile gets the fields and the returned count is that of UpdateAll, the number of profiles that changed |
| Portal.Store.DeleteUser | src/backend/resolvers/user_resolvers.py:127-138 | only an admin or the owner; true exactly when a profile with that id existed, and then it is removed |
| Portal.Store.DeleteUserByFields | src/backend/resolvers/user_resolvers.py:140-152 | no filter is an error; 0 matches gives false with no change; more than 1 is an error; otherwise exactly that profile is removed |
| Portal.Store.DeleteUsersByFields | src/backend/resolvers/user_resolvers.py:154-161 | every match is removed, every other profile stays, and the count is returned |
| Portal.Store.Jobs | src/backend/resolvers/job_resolvers.py:20-24 | the projections of the jobs matching the job filter, after skip and limit |
| Portal.Store.JobById | src/backend/resolvers/job_resolvers.py:26-31 | "Job with ID … not found." exactly when no job has the id; otherwise that job projected |
| Portal.Store.CreateJob | src/backend/resolvers/job_resolvers.py:33-48 | a blank title changes nothing; otherwise one job with a fresh jobId and the stripped title is appended |
| Portal.Store.UpdateJob | src/backend/resolvers/job_resolvers.py:50-62 | the title is checked but not stripped; an empty update and an unknown id are errors; otherwise only that job's non-None fields change |
| Portal.Store.DeleteJob | src/backend/resolvers/job_resolvers.py:64-69 | an unknown id is an error; otherwise exactly that job is removed and the result is true |
| Portal.Store.Applications | src/backend/resolvers/application_resolvers.py:14-25 | exactly the stored applications matching the truthy arguments |
| Portal.Store.ApplicationById | src/backend/resolvers/application_resolvers.py:27-32 | an error exactly when no application has the id; otherwise the first stored application with it |
| Portal.Store.Candidate | src/backend/resolvers/application_resolvers.py:36-43 | None for a falsy userId; otherwise int() of it, whose error propagates, and the profile holding that integer id, projected |
| Portal.Store.Job | src/backend/resolvers/application_resolvers.py:46-53 | None for a falsy jobId; otherwise int() of it, whose error propagates, and the job holding that integer id, projected |
| Portal.Store.CreateApplication | src/backend/resolvers/application_resolvers.py:56-76 | a failed int() conversion or an unknown user or job is the error of the createApplication checks (ApplicationErrorCases) and inserts nothing; otherwise one application with status "Applied", a fresh appId and the userId, jobId and notes as given |
| Portal.Store.Apply | src/backend/resolvers/application_resolvers.py:78-117 | the parsed name must match exactly one user and the title and company exactly one job, with a distinct message for each failure; a matched record without its id field raises KeyError; then it creates the application as createApplication does, which always succeeds for integer ids |
| Portal.Store.UpdateApplication | src/backend/resolvers/application_resolvers.py:120-129 | an empty update and an unknown appId are errors; otherwise only that application changes |
| Portal.Store.Register | src/backend/resolvers/auth_resolvers.py:8-43 | only the roles user and recruiter; a taken email is refused; both checks precede the id, so a refusal consumes none; otherwise one account with the hashed password, plus a starter profile for a user |
| Portal.Store.Login | src/backend/resolvers/auth_resolvers.py:45-57 | one message for an unknown email and for a wrong password; otherwise a token built from the stored account's id, email and role |
| Portal.Store.RecommendedJobs | src/backend/resolvers/recommendation_resolvers.py:26-58 | only a logged-in job seeker; int() of the token subject, whose error propagates; no profile with that id or no skills gives []; otherwise the jobs scoring at least the threshold, best first, stable among equal scores |
| Portal.Store.MatchingCandidates | src/backend/resolvers/recommendation_resolvers.py:61-88 | only a recruiter; a missing job or one without skills gives []; otherwise the profiles scoring at least the threshold, best first |
| ResultDisplay.FirstBlockIsMatch | src/frontend-react/src/components/ResultDisplay.jsx:7-8 | the block found is a match of opener … fence, the leftmost such match, and closes at the first fence after the opener (lazy) |
| ResultDisplay.BlockFound | src/frontend-react/src/components/ResultDisplay.jsx:7-8 | whenever an opener is followed by a fence, a block is found |
| ResultDisplay.OpenersApart | src/frontend-react/src/components/ResultDisplay.jsx:7-8 | two occurrences of an opener never overlap |
| ResultDisplay.OpenerImpliesFence | src/frontend-react/src/components/ResultDisplay.jsx:7-8 | text containing an opener contains a fence |
| ResultDisplay.Inner | src/frontend-react/src/components/ResultDisplay.jsx:7-8 | the captured group exists exactly when a block is found |
| ResultDisplay.RemoveBlock | src/frontend-react/src/components/ResultDisplay.jsx:24-25 | without a block the text is unchanged; otherwise it gets shorter |
| ResultDisplay.RemoveFirst | src/frontend-react/src/components/ResultDisplay.jsx:26-27 | removing an absent header changes nothing; otherwise exactly its length is removed |
| ResultDisplay.ParseContent | src/frontend-react/src/components/ResultDisplay.jsx:4-31 | non-string content gives empty text and gql; text and gql are trimmed; json is absent exactly when there is no json block; no graphql block gives gql ''; text without a fence has neither |
| ResultDisplay.Render | src/frontend-react/src/components/ResultDisplay.jsx:33-58 | the raw content is shown exactly when gql is empty and json is falsy; otherwise a section holds gql or a result |
| ResultDisplay.NonStringIsPlain | src/frontend-react/src/components/ResultDisplay.jsx:37-39 | non-string content is rendered as is |
| ResultDisplay.FenceFreeIsPlain | src/frontend-react/src/components/ResultDisplay.jsx:36-39 | content without a fence is rendered as plain text |
| ResultDisplay.GraphqlBlockRoundTrip | src/frontend-react/src/components/ResultDisplay.jsx:7-10 | a graphql block around a query without fences, after text without backticks, parses back to the trimmed query |
| ResultDisplay.ChatContentRoundTrip | src/frontend-react/src/pages/ChatPage.jsx:44 | the message the chat page writes parses back to empty text, the trimmed query, and the parsed (or raw) trimmed result |

## Left out

- Network, configuration and headers: the LLM endpoint, environment variables, the bearer header and the 90-second timeout are not modelled. The upstream call is a function parameter that returns a timeout, a transport error or a response.
- `json_error` and `unwrap_graphql_errors` live in src/backend/errors.py, which is not part of this model. Error payloads are `Error(message)`, and unwrap is an uninterpreted parameter.
- Nl2GqlPipeline.ProcessRequest: the timeout message follows the code, which has no final period.
- Nl2GqlPipeline.ProcessRequest: a reply body is either not JSON or a JSON object whose "response" is a string or absent. Two failures of the source cannot be represented. A JSON reply that is not an object makes `gen_body.get` raise AttributeError. A "response" that is null or not a string makes `extract_graphql` raise TypeError.
- MongoDB and db.py are not part of this model. The store is in-memory sequences, with counters that yield fresh, increasing ids. application_repo.py is not part of this model; its calls are the same store operations.
- Documents.Page: skip and limit are natural numbers. Mongo's behaviour for negative values is not modelled.
- Documents.Find: a field holding a list matches an equality only on the whole value. Mongo's element-wise array matching is not modelled.
- UserRepo.NameFilterCi: `re.escape` and Mongo's regex engine are kept symbolic. The regex (prefix, escaped literal, suffix, option "i") is read as case-insensitive whole-string equality when anchored and as a substring test otherwise. Mongo's `$` also matching before a final newline is not modelled.
- UserRepo.ToUserOutput: UserID is copied, not coerced with `int()`. An id that is not an integer would raise in the source; ids here are integers or absent.
- JobRepo.ToJobOutput: jobId is copied, not coerced with `int()`, for the same reason.
- Recommendation.MatchScore: the score is the exact integer floor of 100·k/n. Python computes it in floating point and can land one lower, for example 28 instead of 29 for 29 matches out of 100.
- Recommendation.SortDesc: Python's in-place `list.sort` is modelled as a stable insertion-sort function on sequences, so no array is updated in place.
- Portal.Store: the id arguments of the GraphQL queries and mutations (userId, jobId, appId, and the ids of the applications filter) are integers, while the source applies int() to them. This drops three behaviours. An argument such as "abc" makes int() raise. A not-found message echoes the raw argument, so "07" would read "07" and not 7. The string "0" is truthy, so the applications filter would keep it as an id 0; Applications.ZeroIdIgnored holds only for the integer 0.
- Resolvers.IntOf: Python's int() also accepts underscores between digits and non-ASCII decimal digits, and its message quotes the string with repr(); the model reads ASCII digits only and quotes with plain single quotes.
- to_application_output lives in db.py, which is not part of this model; applications are returned as stored.
- Password hashing, the password check and JWT creation are function parameters. RegisteredCanLogin requires check(p, hash(p)). The randomness of bcrypt salts is not modelled.
- Timestamps (postedAt, submittedAt, createdAt) are parameters instead of clock readings.
- Resolvers.Subject: the JWT subject is read as a field value of the caller payload, which is a parameter; token decoding is not modelled.
- Resolvers.NormalizeDate: the source mutates the caller's input dict; the model returns the normalised copy.
- Values other than strings where a string is expected (for example a numeric FirstName) are treated as absent.
- analyticsJobsCount (a `count_documents` call), the Flask routing, the Ariadne wiring and the GraphQL executor are not modelled.
- Unicode: strings are ASCII. Python's `strip`/`splitlines`/`upper` and `\d`, and JavaScript's `trim`, are modelled on their ASCII behaviour.
- ResultDisplay.ParseContent: `JSON.parse` is a parameter returning an optional value, and truthiness of a parsed value is a parameter of Render. The two first-match regexes are modelled by a block search proved leftmost, lazy and complete; the regex engine itself is not modelled.
- The streamlit front end, the other React pages and contexts, api.js and the seeding script are not part of this model.

# fb_marketplace_bot: a Dafny model of its core

This project models the core of a Facebook Marketplace posting tool. It has
two halves.

- **The Django backend.**
  - The bulk product upload: blocks of title, description and price lines, with images matched by order, crossed with the chosen accounts.
  - The account endpoints: add one account, and bulk-add accounts from `email:password` lines.
  - The form-based account upload page, with its automatic clean-up of orphaned session files.
  - The `cleanup_sessions` and `check_superuser` management commands.
  - The server-sent status stream, the error-log listing, the account health check and the session validation.
  - The post serializer and the account serializers.
- **The Next.js frontend.**
  - The posts dashboard: filter, selection, single and bulk delete.
  - The bulk posts dialog and the CSV upload page.
  - The create-post page and the create-post and edit-post dialogs.
  - The add-account dialog.
  - The toast list.
  - The authentication context.

## How things are modelled

**Pure logic.** Filename mapping, line parsing, validation order, the email pattern and error precedence are functions, with lemmas about them. The serializers are modelled on the REST framework's own field checks: a character field strips its text and settles absent, null and blank values before any validator runs, and the decimal price field counts digits the way `validate_precision` does. The clients send posts as multipart forms; a form field reaches the serializer through `Fields.FormInput`, which leaves out an optional field sent as "".

**Backend loops.** Each loop is a method with a `while` loop and invariants, proved equal to a recursive specification function. The properties the source promises are then lemmas about that function. This covers:
- the TXT product parser and the creation loops;
- the account-line loops;
- the two session clean-ups;
- the event stream;
- the health check.

**Frontend state.** The state of each page and dialog is a class. Its fields are the React state. Its handler methods (`modifies this`) state the whole new state. What those methods do is pinned down by the functions and lemmas beside them: toggling, filtering, validation and request building.

**Parameters instead of hidden behaviour.** The model takes these as parameters rather than spelling them out:
- the database (maps and sets);
- the session directory (a listing or a set of file names);
- the server's replies;
- `float`, `parseFloat`, `Number` and `parseInt` (partial functions, where `None` is NaN or a `ValueError`);
- the random toast id.

**Where the code is faulty.** Five places in the source behave differently from what is evidently intended (see "## Findings"). For each, the model follows the code as written, and the intended behaviour is defined and proved beside it.

## Model

| member | source | states |
|---|---|---|
| ProductUpload.JudgeSpec | postings/bulk_upload_with_images.py:99-127 | a block is accepted iff its three stripped lines are non-empty and the price parses to a non-negative number; the product then carries those stripped fields; a rejection is a missing-fields error at the block's first line or an invalid-price error at its third |
| ProductUpload.ParseProducts | postings/bulk_upload_with_images.py:68-151 | the parsing loop returns exactly the products and the errors of the block sequence the file is read as |
| ProductUpload.SkipBlank | postings/bulk_upload_with_images.py:84-87 | a blank line at the cursor yields neither a product nor an error |
| ProductUpload.Incomplete | postings/bulk_upload_with_images.py:91-97 | fewer than three lines left at a non-blank cursor give exactly one "Incomplete product data" error and stop parsing |
| ProductUpload.Advance | postings/bulk_upload_with_images.py:99-142 | a full block contributes its own verdict, and parsing resumes four lines on with the next product index |
| ProductUpload.MissingFields | postings/bulk_upload_with_images.py:103-112 | a block with an empty description or price yields a missing-fields error at its first line and no product |
| ProductUpload.InvalidPrice | postings/bulk_upload_with_images.py:114-127 | an unparsable or negative price yields "Invalid price: <text>" at the block's third line and no product |
| ProductUpload.ValidBlock | postings/bulk_upload_with_images.py:129-142 | a block with non-empty fields and a non-negative price yields one product with the image of its index |
| ProductUpload.ProductsAndErrors | postings/bulk_upload_with_images.py:81-151 | every block gives exactly one product or one error |
| ProductUpload.BlocksIndexed | postings/bulk_upload_with_images.py:110-141 | product indices count up from the start with no gaps, rejected blocks included |
| ProductUpload.BlocksSpaced | postings/bulk_upload_with_images.py:110-142 | each block starts at least four lines after the one before |
| ProductUpload.BlockVerdicts | postings/bulk_upload_with_images.py:91-127 | each block's verdict is the incomplete-data error or the judgement of its three lines |
| ProductUpload.ImageByOrder | postings/bulk_upload_with_images.py:129-132 | the j-th block, when accepted, carries the j-th image if there is one, and no image otherwise |
| ProductUpload.NonFinitePriceAccepted | postings/bulk_upload_with_images.py:114-119 | a price `float` reads as NaN or +infinity passes the judgement, since `x < 0` is false for both, yet such a price can never be stored |
| ProductUpload.CrossProductIndex | postings/bulk_upload_with_images.py:153-172 | there is one post per product and account, and post p·m+a is product p for account a |
| ProductUpload.CrossProductCell | postings/bulk_upload_with_images.py:154-163 | the post for product p and account a sits at p·m+a |
| ProductUpload.FirstUnstorable | postings/bulk_upload_with_images.py:154-163 | the first product whose price the `DecimalField(max_digits=10, decimal_places=2)` column cannot store: every earlier one can |
| ProductUpload.CreatePosts | postings/bulk_upload_with_images.py:153-172 | the creation loops create the product-major cross product and count every post; when a price cannot be stored they stop there, with the posts of all earlier products written and that price reported |
| ProductUpload.Truncate | postings/bulk_upload_with_images.py:185-188 | at most ten errors are shown, as a prefix of the list; `additional_errors` is present iff there are more, and it counts the rest |
| ProductUpload.ParseIdsOfWritten | postings/bulk_upload_with_images.py:52-55 | ids written as decimal text are looked up as exactly those integers, in order |
| ProductUpload.Matching | postings/bulk_upload_with_images.py:52-61 | every account found is in the table and was requested, and every requested account in the table is found |
| ProductUpload.Upload | postings/bulk_upload_with_images.py:33-196 | the view rejects, in order: a missing TXT file, then empty `account_ids`, then a bad id, then no matching account, then undecodable text. Otherwise it creates the cross product of the parsed products and the accounts and reports counts and truncated errors; a price that cannot be stored gives a 400 with the earlier posts kept |
| AccountApi.AddWithLogin | accounts/api_views.py:134-177 | an account is created iff both fields are given and the address is new; a refusal leaves the table unchanged and says why |
| AccountApi.AddTwiceRejected | accounts/api_views.py:143-154 | repeating any add call is refused and changes nothing; when both fields were given the refusal is "already exists" |
| AccountApi.BlankOrColonlessIgnored | accounts/api_views.py:212-217 | blank lines and lines without ':' are skipped |
| AccountApi.SplitAtFirstColon | accounts/api_views.py:219-230 | a line is split at its first ':', so the password may contain ':' |
| AccountApi.ColonInPassword | accounts/api_views.py:221-230 | an illustration of the split at the first ':': `ann@mail.com:pa:ss` is read as that address and the password `pa:ss` |
| AccountApi.EmptyPasswordFails | accounts/api_views.py:232-238 | a line with nothing after ':' is a failure quoting the line |
| AccountApi.EmptyEmailFails | accounts/api_views.py:232-238 | a line with nothing before ':' is a failure quoting the line |
| AccountApi.RunCounts | accounts/api_views.py:212-256 | each considered line lands in exactly one of created, skipped and failed |
| AccountApi.RunConsistent | accounts/api_views.py:240-250 | the table afterwards is the old one plus exactly the created addresses, and a created address was new |
| AccountApi.RepeatedLineSkipped | accounts/api_views.py:240-250 | a line repeated in one file is created once and skipped the second time |
| AccountApi.IgnoredLineChangesNothing | accounts/api_views.py:215-217 | an ignored line changes nothing in the outcome |
| AccountApi.BulkLineAgreesWithAdd | accounts/api_views.py:240-250 | a well-formed bulk line leaves the table as the single-account endpoint would |
| AccountApi.BulkUploadAccounts | accounts/api_views.py:188-288 | a missing file, a name not ending in ".txt" and undecodable content are refused; otherwise the loop's outcome is returned with its three counts |
| AccountViews.CleanupOrphanedSessions | accounts/views.py:10-39 | without a sessions directory nothing is removed; otherwise the removed files are exactly the `.json` files whose rebuilt address is not stored |
| AccountViews.ViewsEmailOfParts | accounts/views.py:25-30 | the address rebuilt in the loop is the view's reading of the file name |
| AccountViews.CleanupScope | accounts/views.py:21-33 | a file is removed iff it is listed, ends in ".json", has at least three '_' parts, and its rebuilt address is not stored |
| AccountViews.PlainSessionKept | accounts/views.py:29-33 | the session of a stored `local@name.tld` with no '.' or '_' in the local part or the TLD survives |
| AccountViews.DottedStem | accounts/views.py:92 | the file stem of `first.second@name.tld` is `first_second_name_tld` |
| AccountViews.DottedLocalRebuilt | accounts/views.py:25-30 | that stem is read back as `first@second_name.tld` |
| AccountViews.DottedSessionDeleted | accounts/views.py:23-36 | so a stored `first.second@name.tld` is misread as `first@second_name.tld`, and when that address is not stored as well (here: the table holds only the dotted one) its session file is deleted |
| AccountViews.BulkUploadAccounts | accounts/views.py:42-81 | the clean-up runs first; a valid upload upserts every kept line and reports how many were processed; a file that is not UTF-8 is a server error after the clean-up, with no row written |
| AccountViews.UpsertOnePerLine | accounts/views.py:56-75 | there is one processed entry per kept line, in file order |
| AccountViews.UpsertKeys | accounts/views.py:65-73 | the table afterwards holds exactly the old addresses and the uploaded ones |
| AccountViews.UpsertCreatedFlags | accounts/views.py:66-75 | an entry is flagged created iff its address was neither stored nor met earlier in the file |
| AccountViews.UpsertLastWins | accounts/views.py:56-73 | for every line that is the last to name its address, the table afterwards holds that address with that line's password |
| AccountViews.UpsertUnnamedKept | accounts/views.py:56-73 | an address no line names keeps its row, or stays absent |
| AccountViews.CommentedLineProcessed | accounts/views.py:56-63 | a '#'-commented line with a ':' is ignored by the API upload but upserted here, with the '#' in its address |
| AccountViews.Logins | accounts/views.py:91-109 | over a directory that does not change, at most one login per processed entry; each is for an address without a session file, with its stored password or none |
| AccountViews.LoginsSkipExisting | accounts/views.py:91-97 | a login is started for a processed address iff its session file does not exist |
| AccountViews.LoginPass | accounts/views.py:89-115 | with the directory checked again before each entry, at most one login per entry, never for an address whose file was there at the start, each with its stored password or none; the directory only grows |
| AccountViews.PassFiles | accounts/views.py:91-111 | the directory afterwards holds its first files and exactly the files of the logins whose call saved |
| AccountViews.SavedNotRepeated | accounts/views.py:91-97 | once a login has saved its session, no later entry mapping to the same file starts another |
| AccountViews.AlwaysSavesOnce | accounts/views.py:91-97 | when every call saves, each session file is logged in at most once |
| AccountViews.PassAsWritten | accounts/views.py:107-115 | as written every call raises before saving, so the directory never changes and the logins are `Logins` of the starting directory: an address listed twice is logged in twice |
| AccountViews.ProcessSessions | accounts/views.py:89-115 | the loop, re-checking the directory before each entry, starts exactly the logins of `LoginPass`, in order, and leaves its directory |
| CleanupSessionsCommand.NothingDeletedIffZero | accounts/management/commands/cleanup_sessions.py:35-38 | the "No orphaned sessions found" line appears iff nothing was removed |
| CleanupSessionsCommand.DeletedLines | accounts/management/commands/cleanup_sessions.py:29-33 | one output line per removed file, naming it |
| CleanupSessionsCommand.Handle | accounts/management/commands/cleanup_sessions.py:9-38 | without a sessions directory there is only the warning; otherwise the removed files are exactly the orphans, and the output is one line per removal, then the summary |
| CleanupSessionsCommand.PlainSessionKept | accounts/management/commands/cleanup_sessions.py:24-29 | the session of a stored address with no '_' and no '.' in its local part survives |
| CleanupSessionsCommand.DottedSessionDeleted | accounts/management/commands/cleanup_sessions.py:24-33 | when the only stored address has a '.' in its local part, its session file is removed |
| SessionNames.Mangle | accounts/views.py:92 | '@' and '.' become '_', and every other character stays |
| SessionNames.SessionFileName | accounts/views.py:92 | the file name is the mangled address plus ".json", with no '@' or '.' before the suffix |
| SessionNames.MangleCollides | accounts/api_views.py:120 | three different addresses share one session file |
| SessionNames.CommandEmail | accounts/management/commands/cleanup_sessions.py:26 | the command's reading of a file name never contains '_' |
| SessionNames.StemOfSessionFileName | accounts/views.py:25 | removing ".json" from a session file name leaves the mangled address |
| SessionNames.UnmangleDomain | accounts/management/commands/cleanup_sessions.py:26 | turning '_' back into '.' restores a domain without '@' or '_' |
| SessionNames.CommandReadsBack | accounts/management/commands/cleanup_sessions.py:26 | the command reads back an address with no '_' and no '.' in its local part |
| SessionNames.CommandMisreadsDottedLocal | accounts/management/commands/cleanup_sessions.py:26 | it misreads every address with a '.' in its local part |
| SessionNames.CommandRoundTrip | accounts/management/commands/cleanup_sessions.py:26 | the command reads back an address iff the address has no '_' and its local part no '.' |
| SessionNames.ViewsRoundTrip | accounts/views.py:25-30 | the view reads back `local@name.tld` when local part and TLD have no separator and the name has no '@' or '.' |
| SessionNames.ViewsMisreadsLocalSeparator | accounts/views.py:25-30 | the view misreads every address whose local part holds '.' or '_' |
| SessionNames.ViewsRebuildsOneDot | accounts/views.py:25-30 | whatever the file name, the address the view rebuilds holds at most one '.' |
| SessionNames.ViewsMisreadsTwoDots | accounts/views.py:25-30 | so it misreads every address with two dots, `user@mail.co.uk` as much as `first.last@gmail.com` |
| SessionNames.OrphansMembers | accounts/views.py:21-33 | a file is an orphan iff it is listed and its rebuilt address exists and is not stored |
| SessionNames.FixedOrphans | accounts/views.py:10-39 | the intended clean-up: a file is removed iff it is no stored account's session file, so no live session is ever removed |
| RealtimeViews.EventStream | postings/realtime_views.py:24-61 | the generator's loop yields exactly the events of the stream specification |
| RealtimeViews.StreamShape | postings/realtime_views.py:35-61 | every stream ends with its only close event, and every event before the last two is a job snapshot |
| RealtimeViews.StreamPollsAtMost600 | postings/realtime_views.py:27-30 | the stream depends only on the first 600 polls |
| RealtimeViews.FirstPollSends | postings/realtime_views.py:41-45 | the first poll that finds the job sends its snapshot |
| RealtimeViews.FinishedAtOnce | postings/realtime_views.py:41-50 | a job finished at the first poll gives its snapshot, the completion event and the close event |
| RealtimeViews.QuietJob | postings/realtime_views.py:41-53 | an unchanging unfinished job gives one snapshot per remaining multiple of five iterations, then the close event |
| RealtimeViews.QuietJobFromStart | postings/realtime_views.py:26-53 | such a job gives 121 events over the 600 iterations: a snapshot every fifth iteration and the close event |
| RealtimeViews.LimitOfInteger | postings/realtime_views.py:111-115 | every written integer is taken as the limit |
| RealtimeViews.LimitOfText | postings/realtime_views.py:111-115 | a non-integer limit falls back to 50 |
| RealtimeViews.LogsFor | postings/realtime_views.py:98-108 | a log is listed iff it is in the table and matches the post id and the non-empty error type asked for |
| RealtimeViews.LogsForKeepsOrder | postings/realtime_views.py:98-108 | filtering works part by part, so the listed logs keep table order |
| RealtimeViews.LogsForOne | postings/realtime_views.py:100-108 | a single log is listed iff it matches |
| RealtimeViews.PostIdOfInteger | postings/realtime_views.py:100-103 | an integer `post_id` is that id, and only its logs are listed |
| RealtimeViews.PostIdOfText | postings/realtime_views.py:100-103 | a `post_id` that is no integer is a server error |
| RealtimeViews.GetErrorLogs | postings/realtime_views.py:92-123 | a `post_id` that is no integer or a negative limit is a server error; otherwise the reply is the first `limit` matching logs, in table order, and their count |
| Text.UnderscoreIgnored | postings/realtime_views.py:111-115 | `int()` ignores one underscore between two runs of digits |
| Text.DoubleUnderscore | postings/realtime_views.py:111-115 | two underscores in a row make the text no integer |
| Text.LeadingUnderscore | postings/realtime_views.py:111-115 | a leading underscore makes the text no integer |
| Text.TrailingUnderscore | postings/realtime_views.py:111-115 | a trailing underscore makes the text no integer |
| Text.IntRoundTrip | postings/realtime_views.py:111-115 | every integer written out reads back as itself |
| RealtimeViews.AtMostFiftyByDefault | postings/realtime_views.py:111-117 | without a limit, at most 50 logs come back |
| RealtimeViews.CountWhere | postings/realtime_views.py:155-159 | a per-account post count never exceeds the number of posts |
| RealtimeViews.HealthOf | postings/realtime_views.py:170 | the status is healthy iff the session is valid, and never a warning when validity equals existence |
| RealtimeViews.CheckAccount | postings/realtime_views.py:139-171 | an account is healthy iff its session file exists, and is never in warning |
| RealtimeViews.CheckAccounts | postings/realtime_views.py:137-171 | the loop gives one result per account, in order, each the account's check |
| RealtimeViews.CountsSum | postings/realtime_views.py:174-176 | the healthy, warning and error counts add up to the number of accounts |
| RealtimeViews.CountZero | postings/realtime_views.py:174-176 | a count is zero iff no result has that status |
| RealtimeViews.OverallHealth | postings/realtime_views.py:179 | the counts add up; overall health is healthy iff no account is in error, and a warning iff some are in error and some healthy |
| RealtimeViews.NoWarnings | postings/realtime_views.py:170-183 | the health check never reports a warning |
| RealtimeViews.ValidateSession | postings/realtime_views.py:192-243 | an unknown id is not found; a file that is not UTF-8 or whose JSON top level is `null`, a number or a boolean is a server error; otherwise the session is valid iff its file exists, is JSON and has cookies, and an action is required iff it is not valid |
| RealtimeViews.ValidImpliesHealthy | postings/realtime_views.py:222-230 | a valid session is one the health check calls healthy |
| RealtimeViews.CorruptedButHealthy | postings/realtime_views.py:232-237 | a corrupted session file is still healthy for the health check |
| Fields.BoundsErrors | postings/serializers.py:11 | no message iff the stripped text is within the field's bounds and has no NUL; each violated bound has its message |
| Fields.CharField | postings/serializers.py:11-12 | an optional field left out is skipped, a required one reported; null and blank are settled first; any other text is stripped, and it passes iff it is within bounds and every validator accepts it, otherwise all their messages are reported in order; a passing value has no surrounding whitespace |
| Fields.ValidatorsSeeNoBlank | postings/serializers.py:38-48 | a value that passes a field refusing blank text is never blank, so a validator's own "empty" check never fires |
| PostSerializers.ValidatePrice | postings/serializers.py:32-36 | a price is refused iff it is at most zero, with "Price must be greater than 0" |
| PostSerializers.NotBlank | postings/serializers.py:38-48 | a value is refused with the method's message iff it is blank |
| PostSerializers.TextField | postings/serializers.py:11-12 | the field and then its `validate_<field>`: passes iff sent, not blank and within bounds once stripped, and never with the method's own message |
| PostSerializers.TitleField | postings/serializers.py:11 | as the serializer receives it, a title passes iff it is left out, or non-blank, at most 255 characters and NUL-free once stripped; the value kept is the stripped text; "Title cannot be empty" is never produced |
| PostSerializers.DescriptionField | postings/serializers.py:12 | as the serializer receives it, a description passes iff it is left out, or non-blank and NUL-free; the value kept is stripped; "Description cannot be empty" is never produced |
| PostSerializers.PrecisionOf | postings/serializers.py:13-14 | the digits counted in total, before and after the point, from the coefficient and exponent |
| PostSerializers.PrecisionError | postings/serializers.py:13-14 | the first precision check that fails, in the order total digits, places, whole digits; none iff all hold |
| PostSerializers.PrecisionPasses | postings/serializers.py:13-14 | the precision checks pass iff at most two places are written and at most eight digits come before the point |
| PostSerializers.CentsBound | postings/serializers.py:13-14 | for a non-zero coefficient, eight whole digits at most is the same as a value below 10^10 hundredths |
| PostSerializers.PriceField | postings/serializers.py:13-36 | as the serializer receives it, a price left out is skipped; null, text over 1000 characters, and text that is not a finite number each get their own message; every refusal has one message |
| PostSerializers.PriceFieldAccepts | postings/serializers.py:13-36 | a sent price passes iff its text is short enough and reads as a positive decimal with at most two places below 10^8, and the value kept is that decimal in hundredths |
| PostSerializers.WholeDigitsRefused | postings/serializers.py:13-14 | nine or ten digits before the point, and none after, get the "8 digits before the decimal point" message |
| PostSerializers.ExtraPlacesRefused | postings/serializers.py:13-14 | more than two written places within ten digits get the "2 decimal places" message, trailing zeros included |
| PostSerializers.CheckPost | postings/serializers.py:10-48 | over the fields as received, a request is valid iff no field fails, and then carries each field's validated value; otherwise the errors hold exactly the failing fields, each with its messages |
| PostSerializers.NothingSentValid | postings/serializers.py:10-21 | a field left out is neither validated nor reported, so an empty update is valid and changes nothing |
| Fields.FormInput | frontend/components/CreatePostModal.tsx:136-139 | from a form body, a name not sent is left out, and so is exactly "" for a field neither required nor open to blank text; other text arrives as sent, and never as null |
| PostSerializers.FormFields | postings/serializers.py:11-13 | from the form bodies the clients send, a title, description or price sent as "" is skipped like one not sent; spaces only are still refused as blank; other text is checked as in a JSON body; an all-empty form is valid |
| AccountSerializers.UsernameErrors | accounts/serializers.py:16-19 | no message iff the username has only allowed characters and is not taken; each failure has its message |
| AccountSerializers.FieldErrors | accounts/serializers.py:12-19 | the errors hold exactly the failing fields, each with its messages, and are empty iff none fails |
| AccountSerializers.Decide | accounts/serializers.py:21-36 | a failing field rejects the request with every field's messages; only then is the password compared with its confirmation, under "password"; an accepted request creates the user from the validated values, optional ones defaulting to "" |
| AccountSerializers.UsernameField | accounts/serializers.py:16-19 | the username passes iff it is sent, non-blank, at most 150 allowed characters once stripped and not taken |
| AccountSerializers.PasswordField | accounts/serializers.py:13 | the password passes iff it is sent, non-blank and at least 6 characters once stripped |
| AccountSerializers.FieldsPass | accounts/serializers.py:12-19 | no field fails iff each field meets its own rules |
| AccountSerializers.RegisterAccepts | accounts/serializers.py:12-36 | a sign-up is accepted iff every field meets its rules and the stripped password equals the stripped confirmation; the user gets the stripped username and password |
| AccountSerializers.FieldFailureReported | accounts/serializers.py:12-25 | a failing field makes the request fail with exactly that field's messages under its name |
| AccountSerializers.ShortPasswordField | accounts/serializers.py:13 | a password shorter than 6 characters once stripped is refused with the minimum-length message |
| AccountSerializers.PasswordLengthAfterStrip | accounts/serializers.py:13 | so such a sign-up is refused with that message under "password", whatever padding it carries |
| AccountSerializers.TakenUsernameField | accounts/serializers.py:16-19 | a username already taken is refused with the uniqueness message |
| AccountSerializers.TakenUsernameRefused | accounts/serializers.py:16-19 | so such a sign-up is refused with that message under "username" |
| AccountSerializers.SerializeAccount | accounts/serializers.py:39-52 | the output never holds the password, and `session_exists` is whether the account's session file exists |
| AccountSerializers.SharedSessionFile | accounts/serializers.py:49-52 | two accounts whose addresses map to one file name report the same `session_exists`, as `a.b@c.d` and `a_b@c.d` do |
| CheckSuperuserCommand.VerifyChangesNothing | accounts/management/commands/check_superuser.py:64-72 | verifying never changes the table, and reports success iff the password matches an active superuser |
| CheckSuperuserCommand.PromoteKeepsPassword | accounts/management/commands/check_superuser.py:80-91 | promoting sets both flags, keeps the password and adds no user |
| CheckSuperuserCommand.CreateDefaultsEmail | accounts/management/commands/check_superuser.py:93-100 | a new superuser without an email gets `<username>@example.com` |
| CheckSuperuserCommand.AlreadySuperuserUnchanged | accounts/management/commands/check_superuser.py:75-84 | creating over an existing superuser leaves the table unchanged and reports it as already a superuser, not promoted |
| CheckSuperuserCommand.CreateIdempotent | accounts/management/commands/check_superuser.py:75-100 | after a create the user is a superuser, and a second create changes nothing |
| CheckSuperuserCommand.UsageHintRule | accounts/management/commands/check_superuser.py:106-108 | the usage hint appears iff neither flag is set and there is no superuser |
| CheckSuperuserCommand.UserTable.Handle | accounts/management/commands/check_superuser.py:41-111 | the table and the output become the command's specified ones |
| Selection.Without | frontend/app/dashboard/posts/page.tsx:115 | the id is gone and every other id keeps its membership |
| Selection.Toggle | frontend/app/dashboard/posts/page.tsx:113-119 | the id's membership flips, other ids keep theirs, and a new id goes at the end |
| Selection.ToggleTwice | frontend/app/dashboard/posts/page.tsx:113-119 | toggling twice keeps the same ids selected, and gives back the very selection when the id was absent |
| Selection.ToggleNoDuplicates | frontend/app/dashboard/posts/page.tsx:113-119 | toggling never introduces a repeated id |
| Selection.SelectAllClearsWhenAllTicked | frontend/app/dashboard/posts/page.tsx:105-111 | with distinct ids all drawn from the list, select-all clears the selection iff every listed id is ticked, and otherwise ticks them all |
| Selection.StaleSelectionClears | frontend/app/dashboard/posts/page.tsx:105-111 | with an id ticked that is no longer listed (after a filter change), equal counts clear the selection although some listed id is unticked |
| Selection.DistinctCount | frontend/app/dashboard/posts/page.tsx:105-111 | a list of distinct ids has as many ids as its set |
| Selection.SelectAllTwice | frontend/app/dashboard/posts/page.tsx:105-111 | whenever the counts differ, select-all ticks every listed id, and a second press clears them |
| PostsPage.Filtered | frontend/app/dashboard/posts/page.tsx:121-125 | a post is listed iff the filter shows it, and "all" lists every post |
| PostsPage.StatsAddUp | frontend/app/dashboard/posts/page.tsx:127-131 | every post is counted once, as posted or as pending |
| PostsPage.Find | frontend/app/dashboard/posts/page.tsx:286 | a found post has the id, and nothing found means no post has it |
| PostsPage.PendingIdMeans | frontend/app/dashboard/posts/page.tsx:285-288 | with distinct ids, a selected id is counted iff a pending post carries it |
| PostsPage.StartPostingShown | frontend/app/dashboard/posts/page.tsx:285-301 | the "Start Posting" button shows iff its count is positive |
| PostsPage.WithoutPost | frontend/app/dashboard/posts/page.tsx:69 | after a delete, exactly the posts with other ids remain |
| PostsPage.WithoutPostShrinks | frontend/app/dashboard/posts/page.tsx:69 | with distinct ids, deleting an existing post removes exactly one |
| PostsPage.Unselected | frontend/app/dashboard/posts/page.tsx:94 | after a bulk delete, exactly the unselected posts remain |
| PostsPage.BulkIsRepeatedDelete | frontend/app/dashboard/posts/page.tsx:93-94 | a bulk delete leaves what deleting the first selected id and then bulk-deleting the rest would |
| PostsPage.Page.SetFilter | frontend/app/dashboard/posts/page.tsx:228-242 | only the filter changes |
| PostsPage.Page.SelectPost | frontend/app/dashboard/posts/page.tsx:113-119 | the selection becomes its toggle |
| PostsPage.Page.SelectAll | frontend/app/dashboard/posts/page.tsx:105-111 | the selection becomes all or none of the shown posts' ids |
| PostsPage.Page.Delete | frontend/app/dashboard/posts/page.tsx:64-76 | unconfirmed does nothing; a deleted post leaves the list and the selection with a success toast; a failure changes nothing and shows an error |
| PostsPage.Page.BulkDelete | frontend/app/dashboard/posts/page.tsx:78-103 | an empty selection is an error; once confirmed, every selected id is sent; success removes them and clears the selection; failure changes nothing |
| BulkPostsModal.ValidImages | frontend/components/BulkUploadPostsModal.tsx:87-101 | exactly the image files are kept, in order |
| BulkPostsModal.DroppedIffNotImage | frontend/components/BulkUploadPostsModal.tsx:87-101 | some file is dropped iff some chosen file is not an image |
| BulkPostsModal.AccountFieldsRead | frontend/components/BulkUploadPostsModal.tsx:167-169 | the account entries are read back as the ids written out, and hold no image |
| BulkPostsModal.ImageFieldsRead | frontend/components/BulkUploadPostsModal.tsx:172-174 | the image entries are read back as the images, and hold no account id |
| BulkPostsModal.FormReadBack | frontend/components/BulkUploadPostsModal.tsx:163-174 | the server receives the selected ids, as integers and in order, and the images in order |
| BulkPostsModal.FailureMessages | frontend/components/BulkUploadPostsModal.tsx:194-227 | a non-OK reply shows the server's error or "Upload failed"; a thrown error without a message shows the default |
| BulkPostsModal.Dialog.FileChange | frontend/components/BulkUploadPostsModal.tsx:75-85 | a non-".txt" file is refused and the earlier one kept; an accepted file clears the result |
| BulkPostsModal.Dialog.ImageFilesChange | frontend/components/BulkUploadPostsModal.tsx:87-101 | the images become the valid ones, with an error toast iff some were dropped |
| BulkPostsModal.Dialog.AccountToggle | frontend/components/BulkUploadPostsModal.tsx:103-111 | the selection becomes its toggle |
| BulkPostsModal.Dialog.SelectAllAccounts | frontend/components/BulkUploadPostsModal.tsx:113-119 | the selection becomes all or none of the accounts |
| BulkPostsModal.Dialog.Submit | frontend/components/BulkUploadPostsModal.tsx:145-231 | no file, then no account, sends nothing with an error; otherwise the form is sent, success clears the file, images and selection, and failure records the message |
| BulkPostsModal.Dialog.Close | frontend/components/BulkUploadPostsModal.tsx:233-238 | the file, selection and result are cleared but the images stay |
| CsvUploadPage.SubmitCheck | frontend/app/dashboard/bulk-upload/page.tsx:110-118 | submission passes iff a file and an account are chosen, the file check first |
| CsvUploadPage.ButtonMatchesChecks | frontend/app/dashboard/bulk-upload/page.tsx:303-305 | when not loading, the button is enabled iff the submit checks pass |
| CsvUploadPage.FailureMessage | frontend/app/dashboard/bulk-upload/page.tsx:137-140 | the server's error, or the default when absent or empty |
| CsvUploadPage.Page.FileChange | frontend/app/dashboard/bulk-upload/page.tsx:61-71 | a non-".csv" file is refused with an error and nothing changes; an accepted one clears the result |
| CsvUploadPage.Page.AccountToggle | frontend/app/dashboard/bulk-upload/page.tsx:73-81 | the selection becomes its toggle |
| CsvUploadPage.Page.SelectAllAccounts | frontend/app/dashboard/bulk-upload/page.tsx:83-89 | the selection becomes all or none of the accounts |
| CsvUploadPage.Page.Submit | frontend/app/dashboard/bulk-upload/page.tsx:107-149 | a failed check sends nothing; otherwise the file and ids are sent, and success clears the file; the result records the reply or the failure |
| CreatePostPage.CollectErrors | frontend/app/dashboard/create-post/page.tsx:105-124 | the checks, run in turn, build exactly the specified error map |
| CreatePostPage.FormValidIff | frontend/app/dashboard/create-post/page.tsx:105-127 | the form is valid iff an account is chosen, title and description are not blank, the price is a positive number, and an image file or URL is given |
| CreatePostPage.PriceMessages | frontend/app/dashboard/create-post/page.tsx:117-121 | a blank price is "required", and a non-blank one that is not a positive number is "must be a positive number" |
| CreatePostPage.JsonIdsReadBack | frontend/app/dashboard/create-post/page.tsx:141 | the JSON list of ids reads back, entry by entry, as the ids |
| CreatePostPage.Payload | frontend/app/dashboard/create-post/page.tsx:140-150 | the ids, title, description and price are sent in order; a file wins over a URL, and without either no image entry is sent |
| CreatePostPage.Page.SelectAll | frontend/app/dashboard/create-post/page.tsx:62-70 | the flag decides: set clears everything, unset selects every account |
| CreatePostPage.Page.SelectAccount | frontend/app/dashboard/create-post/page.tsx:72-83 | the selection becomes its toggle; unticking clears the flag; ticking the last account sets it |
| CreatePostPage.Page.ImageFileChange | frontend/app/dashboard/create-post/page.tsx:85-93 | a chosen file replaces the image and clears the URL |
| CreatePostPage.Page.ImageUrlChange | frontend/app/dashboard/create-post/page.tsx:95-103 | the URL is stored; a non-empty URL clears the file |
| CreatePostPage.Page.ValidateForm | frontend/app/dashboard/create-post/page.tsx:105-128 | the errors become the form's error map, and the answer is whether it is empty |
| CreatePostPage.Page.Submit | frontend/app/dashboard/create-post/page.tsx:130-175 | an invalid form sends nothing; otherwise the payload is sent, and the alert and navigation follow the reply |
| CreatePostModal.ImageCheck | frontend/components/CreatePostModal.tsx:63-76 | an image is taken iff it is at most 5 MiB and of an image type, the size check first |
| CreatePostModal.UnparsablePriceAccepted | frontend/components/CreatePostModal.tsx:115 | a price text that does not parse passes the check as written |
| CreatePostModal.FixedPriceIsPositive | frontend/components/CreatePostModal.tsx:115 | the intended check passes exactly the prices that parse to a positive number, and refuses all the written check refuses |
| CreatePostModal.SubmitError | frontend/components/CreatePostModal.tsx:106-130 | submission passes iff every check passes, and the first failing check names the error |
| CreatePostModal.FirstFailureReported | frontend/components/CreatePostModal.tsx:123-130 | a later error is reported iff every earlier check passes |
| CreatePostModal.Request | frontend/components/CreatePostModal.tsx:136-144 | five text entries, then the image |
| CreatePostModal.Dialog.ImageChange | frontend/components/CreatePostModal.tsx:63-88 | a refused file keeps the image and shows why; an accepted one replaces it, clears the error and previews it |
| CreatePostModal.Dialog.Submit | frontend/components/CreatePostModal.tsx:102-180 | a failing check sends nothing and shows its error; otherwise the request is sent, success resets the form, and failure shows the server's error |
| EditPostModal.FormOf | frontend/components/EditPostModal.tsx:53-61 | the form opens with the post's fields |
| EditPostModal.ApplyInput | frontend/components/EditPostModal.tsx:104-119 | a checkbox sets `posted`, the account takes `parseInt` of the value, other named fields the raw value |
| EditPostModal.InputChangesOneField | frontend/components/EditPostModal.tsx:104-119 | editing one field leaves the others unchanged |
| EditPostModal.EditError | frontend/components/EditPostModal.tsx:127-143 | submission passes iff every check passes, first failure reported; no image is required |
| EditPostModal.UnchangedPostValid | frontend/components/EditPostModal.tsx:53-61 | a post opened unchanged passes whenever its own fields do |
| EditPostModal.UpdateRequest | frontend/components/EditPostModal.tsx:148-158 | five text entries, then the image only if a new one was chosen |
| EditPostModal.Dialog.Open | frontend/components/EditPostModal.tsx:52-66 | the form, preview and image come from the post |
| EditPostModal.Dialog.InputChange | frontend/components/EditPostModal.tsx:104-119 | the form becomes the input's update |
| EditPostModal.Dialog.ImageChange | frontend/components/EditPostModal.tsx:77-102 | same rules as the create dialog |
| EditPostModal.Dialog.CancelImageChange | frontend/components/EditPostModal.tsx:342-345 | the chosen image is dropped and the post's own image previewed |
| EditPostModal.Dialog.Submit | frontend/components/EditPostModal.tsx:121-183 | no post does nothing; a failing check shows its error; otherwise the update is sent with the outcome's toast |
| AddAccountModal.PatternIsPlainEmail | frontend/components/AddAccountModal.tsx:38-41 | a string the pattern accepts has no whitespace, exactly one '@' after a non-empty local part, and a '.' inside the domain |
| AddAccountModal.PlainEmailIsPattern | frontend/components/AddAccountModal.tsx:38-41 | every such string is accepted by the pattern |
| AddAccountModal.EmailPatternMeans | frontend/components/AddAccountModal.tsx:38-41 | the pattern accepts exactly those strings |
| AddAccountModal.ClientError | frontend/components/AddAccountModal.tsx:32-41 | nothing is refused iff both fields are given and the email matches; a missing field is reported first |
| AddAccountModal.SentRequestHasFields | frontend/components/AddAccountModal.tsx:32-35 | whatever the dialog sends passes the endpoint's required-field check |
| AddAccountModal.Dialog.Submit | frontend/components/AddAccountModal.tsx:26-44 | error, success and message are cleared first; a refusal sends nothing; otherwise the credentials are sent and loading is set |
| AddAccountModal.Dialog.Receive | frontend/components/AddAccountModal.tsx:58-84 | success shows the reply's message or the default and clears both fields; a non-OK reply or thrown error shows its message or "Failed to add account" |
| AddAccountModal.Dialog.Close | frontend/components/AddAccountModal.tsx:89-98 | ignored while loading, otherwise every field is reset |
| Toasts.Removed | frontend/components/ui/Toast.tsx:81-83 | exactly the toasts with other ids remain |
| Toasts.RemoveAbsent | frontend/components/ui/Toast.tsx:82 | removing an id no toast carries leaves the list unchanged |
| Toasts.RemoveKeepsOrder | frontend/components/ui/Toast.tsx:81-83 | removal works part by part, so the remaining toasts keep their order |
| Toasts.RemoveIdempotent | frontend/components/ui/Toast.tsx:81-83 | removing twice is removing once |
| Toasts.AddThenRemove | frontend/components/ui/Toast.tsx:76-83 | closing a toast just added under a fresh id gives back the earlier list |
| Toasts.ToastList.AddToast | frontend/components/ui/Toast.tsx:76-79 | exactly one toast with the given type and message is appended |
| Toasts.ToastList.RemoveToast | frontend/components/ui/Toast.tsx:81-83 | the list becomes its removal |
| Toasts.ToastList.ShowSuccess | frontend/components/ui/Toast.tsx:89 | appends a success toast |
| Toasts.ToastList.ShowError | frontend/components/ui/Toast.tsx:90 | appends an error toast |
| Toasts.ToastList.ShowWarning | frontend/components/ui/Toast.tsx:91 | appends a warning toast |
| Toasts.ToastList.ShowInfo | frontend/components/ui/Toast.tsx:92 | appends an info toast |
| AuthContext.NameParts | frontend/context/AuthContext.tsx:81-83 | the first name holds no space, and is non-empty for a non-blank name |
| AuthContext.NamePartsRejoin | frontend/context/AuthContext.tsx:81-83 | first name, a space and last name rebuild the trimmed name; without a space, the whole name is the first name and the last name is empty |
| AuthContext.Username | frontend/context/AuthContext.tsx:86 | the username is a prefix of the email with no '@' |
| AuthContext.UsernameOfAddress | frontend/context/AuthContext.tsx:86 | for `local@domain` the username is `local` |
| AuthContext.SignupError | frontend/context/AuthContext.tsx:113-119 | the message is never empty, and comes from username, email, password, `error`, then "Signup failed", first present wins |
| AuthContext.UsernameMessageWins | frontend/context/AuthContext.tsx:113-118 | with a username message present, the other fields do not matter |
| AuthContext.LoginError | frontend/context/AuthContext.tsx:66-75 | the message is never empty; a 403 shows the reply's message or the approval notice, anything else the reply's error or "Login failed" |
| AuthContext.SignupRequestOf | frontend/context/AuthContext.tsx:80-94 | the arguments passed to `authAPI.signup` are the username and the name parts derived above, with the address and password |
| AuthContext.SignupBody | frontend/lib/api.ts:50-51 | the body posted carries only `email`, `password` and `name`: no username and no confirmation |
| AuthContext.SignupAlwaysRefused | frontend/lib/api.ts:50-51 | the register serializer refuses every such body, reporting username and confirm_password as required, and it would check the address as the password |
| AuthContext.FixedSignupBody | frontend/context/AuthContext.tsx:88-94 | the corrected body carries the six names the serializer reads |
| AuthContext.FixedSignupRegisters | frontend/context/AuthContext.tsx:88-94 | the corrected body reaches the serializer as the arguments, so a sign-up is accepted iff each field meets its rules, with the stripped username and password |
| AuthContext.AuthProvider.Init | frontend/context/AuthContext.tsx:31-50 | a stored session is kept when the profile loads, and cleared when it fails; loading ends |
| AuthContext.AuthProvider.Login | frontend/context/AuthContext.tsx:55-76 | success stores the token and user, sets the user and goes to the dashboard; failure throws its message and changes nothing |
| AuthContext.AuthProvider.Signup | frontend/context/AuthContext.tsx:78-121 | a reply without tokens changes nothing and is returned; one with tokens signs in; a refusal throws the chosen message |
| AuthContext.AuthProvider.Logout | frontend/context/AuthContext.tsx:123-129 | storage and user cleared, not authenticated, sent to the login page |

## Left out

- Browser automation and the background threads that open browsers are not modelled. Whether a call of `save_session` writes its session file is the parameter `saves` of `AccountViews.LoginPass`; as the source calls it, it never does (`AccountViews.CallAsWritten`).
- Time:
  - `time.sleep` and `setTimeout` delays are not modelled;
  - the toast auto-close timer is not modelled;
  - the two-second close after a successful add or upload is not modelled;
  - session ages are not modelled.
- Floating point:
  - `float`, `parseFloat` and `Number` are parameters, not spelled out;
  - `success_rate` and `session_age_days` are not modelled.
- Database, filesystem and ordering:
  - `FacebookAccount` and `User` rows are maps, and the session directory is a listing or a set of names;
  - `os.remove` failures are not modelled;
  - Django querysets, ORM order and `order_by` are not modelled;
  - the accounts are the table's rows in table order.
- Library behaviour:
  - Django REST framework's character and decimal fields are modelled; its other field types are not;
  - Django's password hashing is not modelled: passwords are compared as stored;
  - JSON encoding of events and of the stored user is not modelled;
  - the exact text of DRF's built-in error messages is taken as constants.
- Whitespace: `strip()` and `trim()` remove space, tab, line feed, carriage return, vertical tab and form feed only. Python's `strip()` also removes the ASCII separators `\x1c`–`\x1f` and Unicode spaces; JavaScript's `trim()` also removes Unicode spaces, and so does the `\s` of the address pattern in `AddAccountModal.Plain`, which the model reads as the same six characters: `AddAccountModal.EmailPatternMeans` is exact for ASCII input.
- Fields.CharField: the framework's check against surrogate characters is not modelled, since strings here are sequences of characters, not of UTF-16 units.
- AccountSerializers.UsernameChar: the user model's username pattern takes `\w` as any Unicode word character; the model accepts ASCII letters, digits and '_' only.
- AccountSerializers.EmailValidators: Django's e-mail validator is the parameter `isAddress`, not spelled out.
- AccountSerializers.Decide: `create_user`'s normalisation of the e-mail domain and of the username, and its password hashing, are not modelled; the user row holds the validated values as they are.
- PostSerializers.PriceField: how text becomes a `Decimal` (Python's `Decimal` constructor) is the parameter `parse`; a price sent as a JSON number is taken as its text; the `MAX_STRING_LENGTH` refusal counts characters of the stripped text.
- PostSerializers.CheckPost: the other fields of the post serializer (`image`, `scheduled_time`, `posted`, `account`) and the model-level checks on save are not modelled.
- Text.ParseInt: `int()` also accepts digits of other scripts (Arabic-Indic and the like); the model accepts ASCII digits only.
- ProductUpload.FirstUnstorable: whether a finite price outside the column's range is stored or raises depends on the database backend, and is the parameter `stores`.
- Network and asynchrony:
  - `frontend/lib/api.ts` (interceptors, headers, the 401 redirect) is not part of this model;
  - `fetch` and Axios are not part of this model;
  - each request's outcome is a parameter, and handlers run to completion in one step.
- Loading flags: the loading flags of the pages and dialogs are not state in the model, except in the authentication context and the add-account dialog. In the dialog, sending and receiving are split so that `Close` during a request can be stated.
- The `onSuccess`, `onClose` and `onToast` callbacks of the dialogs are reduced to the notice returned.
- The image preview from `FileReader` is taken as immediate.
- Toasts: `Math.random` ids are a parameter of `AddToast`.
- `AuthContext.AuthProvider.Signup`: a reply whose tokens come without a user is not represented, since the reply carries tokens and user together.
- `EditPostModal.ApplyInput`: covers the inputs the form has. It does not cover a text input named `posted`, or a checkbox with another name, which the source would store under that name.
- `CreatePostModal.Dialog.Submit` and `EditPostModal.Dialog.Submit` always return the toast, whether or not an `onToast` callback was given.
- The create dialog's `handleInputChange` is a plain field update and is not modelled.
- Console output styling and emoji of the management commands and views are dropped.
- Presentation-only components, the signup page's schema, `accounts/encryption.py` and the `PostingProgress` event-source client are not part of this model.

## Findings

| source | as written | input that shows it | evidently intended | confidence | as-written member | corrected member |
|---|---|---|---|---|---|---|
| accounts/views.py:25-33 | the clean-up rebuilds an address by putting '@' after the first '_' part and '.' before the last | stored account `john.doe@gmail.com`, session file `john_doe_gmail_com.json`: rebuilt as `john@doe_gmail.com`, not stored, so the file is deleted; likewise `user@mail.co.uk`, file `user_mail_co_uk.json`, rebuilt as `user@mail_co.uk` (SessionNames.ViewsMisreadsTwoDots) | remove only files that are no stored account's session file | not executed; high | AccountViews.DottedSessionDeleted | SessionNames.FixedOrphans |
| accounts/management/commands/cleanup_sessions.py:26-31 | the command turns the first '_' into '@' and every other '_' into '.' | stored account `john.doe@gmail.com`: the file is read as `john@doe.gmail.com`, not stored, so it is deleted | as above | not executed; high | CleanupSessionsCommand.DottedSessionDeleted | SessionNames.FixedOrphans |
| frontend/components/CreatePostModal.tsx:115 | `!price \|\| parseFloat(price) <= 0` refuses an empty or non-positive price; the same test is at frontend/components/EditPostModal.tsx:136 | price `abc`: `parseFloat` gives NaN, `NaN <= 0` is false, so the request is sent | refuse a price that does not parse to a positive number | not executed; medium | CreatePostModal.UnparsablePriceAccepted | CreatePostModal.FixedPriceIsPositive |
| accounts/views.py:109 | `process_sessions` calls `save_session(email, password)`, but the `save_session` it imports (automation/post_to_facebook.py:6) takes the address alone | any uploaded address without a session file: the call raises a TypeError, the handler prints "Failed to save session", and nothing is written; an address listed twice is tried twice | each call logs in and saves the session, so a saved address is not tried again | not executed; high | AccountViews.PassAsWritten | AccountViews.SavedNotRepeated |
| frontend/context/AuthContext.tsx:88-94 | `authAPI.signup(username, email, password, firstName, lastName)` against `signup(email, password, name)` at frontend/lib/api.ts:50-51, which posts `{email, password, name}` | any sign-up: the body is `{email: username, password: address, name: password}`, with no `username` and no `confirm_password`, so the register serializer refuses it | post the arguments under the serializer's field names, the already confirmed password as the confirmation | not executed; high | AuthContext.SignupAlwaysRefused | AuthContext.FixedSignupRegisters |

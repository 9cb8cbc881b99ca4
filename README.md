# StudentHub core, modelled in Dafny

StudentHub is a university portal for students. A student signs up with a
university email and a scan of the student card. The account then waits as
`pending` until an administrator approves or rejects it. After approval the
student can log in and keep a profile: a bio, interests, contact links, skills,
projects, a photo and a visibility (`public`, `university` or `private`).
A profile is reached at a URL built from the student's name (the *slug*).

Text that a student submits in a profile form is screened against a list of
banned words, which the administrators keep. A rejected submission counts
against its author. The administrators' dashboard lists the authors with the
most rejected submissions.

This project models that core:

- the whole-word banned-word scan and the moderation middleware;
- the banned-word table, with its normalisation and uniqueness rules;
- the `slug` virtual of the user schema and the lookup of a profile by slug;
- the visibility gate in front of a profile page;
- the profile handlers: edit, add a skill, add a project;
- signup validation and registration, login gating, logout;
- the four route guards;
- the upload filters for the student-id document and the profile photo;
- the administrators' routes: approve, reject, delete, banned-word add and
  delete, the dashboard counts and the flagged-user list.

The modules follow the program:

| module | file | models |
|---|---|---|
| `Wrappers` | wrappers.dfy | `Option`, `Result` |
| `Text` | text.dfy | `toLowerCase`, `trim`, `split`, `join`, `\w`, `\s` on ASCII letters |
| `Seqs` | seqs.dfy | the store's natural order: filter, first match, removal |
| `Sorting` | sorting.dfy | the store's `sort`: a stable insertion sort over a total preorder |
| `Users` | users.dfy | `models/User.js` and the user collection (`UserStore`) |
| `BannedWords` | bannedwords.dfy | `models/BannedWord.js` and the word collection (`BannedWordTable`) |
| `Http` | http.dfy | form fields, uploaded files, the session, responses |
| `Guards` | guards.dfy | `middleware/auth.js` |
| `Moderation` | moderation.dfy | `middleware/contentModeration.js` |
| `Uploads` | uploads.dfy | the multer filters of `routes/auth.js` and `routes/profile.js` |
| `Profile` | profile.dfy | `routes/profile.js`, `controllers/profileController.js` |
| `Auth` | auth.dfy | `routes/auth.js` |
| `Admin` | admin.dfy | `routes/admin.js` |

The document collections are classes. Each holds a `map` from id to document
and a `seq` of ids in natural (insertion) order, the order `find` and
`findOne` visit documents in. The session is a class with the session user and
the two flash messages. Handlers are methods that change those fields. Each
method's `ensures` gives the new state in terms of a specification function.
Lemmas prove the source's promises about those functions.

Where the code and its design notes disagree, the model follows the code:

- The owner of a private profile is turned away like everyone else who is not
  an admin (`routes/profile.js:133`). Only an admin session gets through.
- Moderation joins `bio` and every interest into one text and checks that text
  once (`middleware/contentModeration.js:31`). It does not check each field on
  its own or stop at the first field that fails.

Quirks of the code that the model keeps and proves:

- Interests sent as one comma-separated string are spread into single
  characters before moderation, so the checked text never has two word
  characters side by side. A banned word of two or more letters typed as an
  interest is therefore never reported, whatever the table holds
  (`Moderation.InterestStringHidesLongWords`). A one-letter banned word can
  still match.
- The project form runs the moderation middleware, but the middleware only reads
  `bio` and `interests`, so a project is never refused for its words
  (`Moderation.FormWithoutProfileFieldsPasses`).
- A name with a hyphen keeps the `-` in its slug, but the lookup turns every `-`
  back into a space, so no literal slug finds that user
  (`Profile.HyphenatedNameNotFoundBySlug`).
- The upload filter's regular expression is not anchored, so an extension such
  as `.phpng` passes as `png` (`Uploads.UnanchoredExtensionTest`).

## Model

| member | source | states |
|---|---|---|
| Text.TrimProperties | routes/profile.js:68 | `trim` returns the contiguous piece of its input that starts where the leading white space ends, with no white space left at either end |
| Text.TrimEmptyIffAllSpace | routes/auth.js:44 | `trim` leaves the empty string exactly when the text is all white space |
| Text.TrimIdempotent | models/BannedWord.js:9 | trimming twice is trimming once |
| Text.TrimKeepsChars | routes/profile.js:68 | every character of a trimmed text occurs in the original |
| Text.LowerIdempotent | middleware/contentModeration.js:10-13 | lowercasing twice is lowercasing once |
| Text.LowerTrimCommute | routes/admin.js:122 | lowercasing and trimming commute |
| Text.Split | routes/profile.js:68 | `split(',')` gives at least one piece, and no piece holds the separator |
| Text.JoinSplit | routes/profile.js:68 | joining the pieces of a split with the separator gives back the text |
| Text.SplitJoin | routes/profile.js:68 | splitting separator-free pieces joined by the separator gives back the pieces |
| Seqs.Without | routes/admin.js:94 | removal by id is the natural order filtered to the other ids: every other id stays, in its order, distinct ids stay distinct, and an absent id changes nothing |
| Seqs.FindFirst | routes/auth.js:66 | `findOne` returns a document that satisfies the filter, or none when no document does |
| Seqs.FindFirstIsFirst | routes/auth.js:136 | the first document in natural order that satisfies the filter is the one found |
| Seqs.FilterProperties | routes/admin.js:17 | `find(filter)` keeps exactly the documents that pass, each no more often than before |
| Seqs.Count | routes/admin.js:13-16 | `countDocuments(filter)` is the size of `find(filter)` |
| Sorting.SortBySorted | routes/admin.js:18 | sorting yields an ordered permutation of its input |
| Sorting.StringOrderIsTotalPreorder | routes/admin.js:107 | string order is total and transitive, so sorting words by it is well defined |
| Sorting.LexAntisymmetric | routes/admin.js:107 | two words each ordered before the other are equal |
| Users.NewUserDefaults | models/User.js:3-79 | a new account is a pending student with a public profile, an empty bio, no skills or projects and no flagged attempts, and passes the schema's checks |
| Users.SlugIsSlug | models/User.js:89-91 | a slug holds only lowercase letters, digits, `_` and `-` |
| Users.SlugIdempotent | models/User.js:89-91 | the slug of a slug is the slug |
| Users.DashRuns | models/User.js:90 | `replace(/\s+/g, '-')` leaves no white space and adds only `-` |
| Users.KeepSlugChars | models/User.js:90 | `replace(/[^\w-]/g, '')` keeps only word characters and `-` from its input |
| Users.UserStore.Docs | models/User.js:3-86 | the documents in natural order, one per id |
| Users.UserStore.Create | routes/auth.js:88-95 | a created document gets a fresh id, goes last, and no other document changes |
| Users.UserStore.Delete | routes/admin.js:94 | deletion removes that document and no other, the rest in order |
| BannedWords.NormalizeProperties | routes/admin.js:122 | the normal form of a word is lowercase and trimmed, and normalising it again changes nothing |
| BannedWords.NormalizeOfStored | models/BannedWord.js:8-9 | a lowercase, trimmed word is its own normal form |
| BannedWords.NormalizeTwice | models/BannedWord.js:8-9 | the schema's setters after the handler's normalisation change nothing, and a non-empty result is a valid stored word |
| BannedWords.BannedWordTable.Words | models/BannedWord.js:3-10 | the listing holds one stored word per id, each lowercase, trimmed and non-empty |
| BannedWords.BannedWordTable.WordsMeaning | models/BannedWord.js:7 | the listing holds exactly the stored words, each once |
| BannedWords.BannedWordTable.Add | routes/admin.js:121-132 | the lowercase, trimmed word is stored under a fresh id, last; a missing or empty word, or one already stored, changes nothing and says which, keeping words unique |
| BannedWords.BannedWordTable.Insert | models/BannedWord.js:6-9 | storing a valid, new word keeps the table's invariants |
| BannedWords.BannedWordTable.Delete | routes/admin.js:138 | deletion by id removes only that entry; the others stay, in order |
| BannedWords.RemovedWordNotStored | models/BannedWord.js:7 | because stored words are unique, a removed entry's word is no longer in the collection |
| BannedWords.BannedWordTable.Listing | routes/admin.js:107 | the listing sorted ascending is an ordered permutation of the stored words |
| Guards.AuthenticatedDecision | middleware/auth.js:2-8 | passes iff someone is logged in; otherwise redirects to the login page with its message |
| Guards.AdminDecision | middleware/auth.js:11-17 | passes iff the session user is an admin; otherwise redirects to `/` with the admin-only message |
| Guards.ApprovedDecision | middleware/auth.js:20-26 | passes iff the session user is approved; otherwise redirects to `/` with the pending message |
| Guards.GuestDecision | middleware/auth.js:29-34 | passes iff nobody is logged in; otherwise redirects to `/` with no message |
| Guards.GuardsRelate | middleware/auth.js:2-34 | the guest guard passes exactly when the authentication guard refuses; the admin and approval guards pass only for a logged-in user |
| Guards.Apply | middleware/auth.js:3-7 | a guard either goes on or redirects, never both; only a refusal writes its message |
| Moderation.ScanIsFilter | middleware/contentModeration.js:12-18 | the scan of stored words is the word list filtered by the whole-word test, in list order |
| Moderation.ScanMeaning | middleware/contentModeration.js:12-18 | a stored word is reported iff it occurs as a whole word; a list without repeats reports each word at most once |
| Moderation.VerdictMeaning | middleware/contentModeration.js:5-24 | absent or empty text is clean without reading the list; a read failure propagates; `clean` holds iff nothing was found; a word is reported iff it occurs at `\b` boundaries in the lowercased text |
| Moderation.StoredWords | middleware/contentModeration.js:7 | `BannedWord.find()` either throws or returns the table's words in natural order |
| Moderation.TableVerdictMeaning | middleware/contentModeration.js:5-24 | against the table as it stands, the words reported for a non-empty text are exactly the stored words that occur in its lowercase form as whole words, each once |
| Moderation.TableVerdictDistinct | middleware/contentModeration.js:12-18 | no word of the table is reported twice |
| Moderation.ListedWordIsCaught | routes/admin.js:121-132 | once a word is in the table, a text holding it as a whole word is refused and the word is named |
| Moderation.UnlistedWordIsNotReported | routes/admin.js:136-146 | a word not in the table is never named, so a deleted word no longer refuses anything |
| Moderation.CheckBannedWords | middleware/contentModeration.js:4-25 | the loop over the table's words computes the verdict against the table as it stands, or the read failure |
| Moderation.DrugsFound | middleware/contentModeration.js:15-16 | "drugs" is found in "No drugs" |
| Moderation.DrugstoreClean | middleware/contentModeration.js:15-16 | "drugs" is not found in "drugstore" |
| Moderation.NoLongWordInSpacedText | middleware/contentModeration.js:15 | a text with no two adjacent word characters holds no whole word of two or more word characters |
| Moderation.Flagged | middleware/contentModeration.js:38-42 | a flagged attempt raises the session user's counter by one and changes nothing else; no user, no change |
| Moderation.RecordFlaggedAttempt | middleware/contentModeration.js:38-42 | a logged-in visitor's counter is raised by one, or the failed write is reported and nothing changes; an anonymous request writes nothing |
| Moderation.ValidateProfileContent | middleware/contentModeration.js:28-53 | checked against the table as it stands: a failed read or a failed counter write goes to `next(error)` with nothing written; clean text goes on; dirty text counts one attempt, sets the message listing every match once and redirects back |
| Moderation.FormWithoutProfileFieldsPasses | middleware/contentModeration.js:30-33 | a form without `bio` and `interests` is always clean |
| Moderation.SpelledOutText | middleware/contentModeration.js:31 | interests sent as the string "drugs" are merged as " d r u g s" |
| Moderation.InterestStringIsSpelledOut | middleware/contentModeration.js:31 | one instance: interests sent as the string "drugs" pass a list holding "drugs" |
| Moderation.SpreadJoinIsSpaced | middleware/contentModeration.js:31 | the characters of a string joined by spaces never put two word characters side by side |
| Moderation.SpelledOutTextIsSpaced | middleware/contentModeration.js:31 | interests sent as any one string merge, lowercased, into a text with no two adjacent word characters |
| Moderation.SpacedTextHidesLongWords | middleware/contentModeration.js:12-18 | in such a text no word of two or more leading word characters is reported against the table, and a table of only such words passes the text |
| Moderation.InterestStringHidesLongWords | middleware/contentModeration.js:31 | for any interests string and any table, a banned word of two or more leading word characters is never reported, and a table of only such words lets the request through |
| Moderation.MatchInFieldSurvivesJoin | middleware/contentModeration.js:31 | a whole-word match in one field remains one in the merged text |
| Uploads.LastIndexOf | routes/auth.js:26 | the last position of a character, or none when it does not occur |
| Uploads.Basename | routes/auth.js:26 | the last path segment holds no `/` |
| Uploads.Extname | routes/auth.js:26 | `path.extname` is empty or a `.` followed by text without `.` or `/` |
| Uploads.ExtnameOfStemAndExt | routes/auth.js:26 | a name `stem.ext` with a non-empty stem has the extension `.ext` |
| Uploads.ExtnameOfDotFile | routes/auth.js:26 | a dot-file such as `.png` has no extension |
| Uploads.ExtnameWithoutDot | routes/auth.js:26 | a name without a dot has no extension |
| Uploads.ExtnameOfDotDot | routes/auth.js:26 | the name `..` has no extension |
| Uploads.Receive | routes/auth.js:21-33 | a file passes iff its extension and its type both hold an allowed alternative and it is within the size limit; each refusal carries its own message |
| Uploads.AcceptedHasExtension | routes/auth.js:26-28 | an accepted file has a non-empty extension |
| Uploads.PhotoTypesAreDocumentTypes | routes/profile.js:24-27 | every photo type the profile form accepts also passes the signup form's type test |
| Uploads.UnanchoredExtensionTest | routes/auth.js:25-26 | an extension that merely contains an allowed alternative passes |
| Uploads.PhpngPhotoAccepted | routes/profile.js:24-26 | a photo named `shell.phpng` declared as `image/png` is accepted |
| Profile.ParseInterestsWellFormed | routes/profile.js:68 | each parsed interest is non-empty, trimmed and comma-free, and the interests are exactly the non-empty trimmed comma-separated pieces |
| Profile.ParseInterestsPiece | routes/profile.js:68 | a text without commas gives its trimmed self, or nothing when that is empty |
| Profile.ParseInterestsCons | routes/profile.js:68 | the interests of `a,b` are those of `a` followed by those of `b`, so order is kept piece by piece |
| Profile.ParseInterestsRoundTrip | controllers/profileController.js:30 | interests that are non-empty, trimmed and comma-free come back unchanged from their comma-joined text |
| Profile.Gate | routes/profile.js:128-145 | a miss is a 404; a private profile renders only for an admin; a university profile needs a session; otherwise it renders, `isOwner` iff the ids match |
| Profile.GateOwnerAndPublic | routes/profile.js:133-145 | the non-admin owner of a private profile is redirected; a public profile renders for everyone |
| Profile.ProfileByUsername | controllers/profileController.js:85-102 | the gate's response, with its message written to the session only on a refusal |
| Profile.FindBySlug | routes/profile.js:124-126 | the first user whose whole name matches the slug with `-` read as a space, ignoring case, or none when no user's does |
| Profile.SlugFindsPlainName | routes/profile.js:124-126 | a name of word characters and single spaces matches its own slug |
| Profile.HyphenatedNameNotFoundBySlug | routes/profile.js:125 | a name with a hyphen matches no literal slug |
| Profile.ViewProfileBySlug | routes/profile.js:122-150 | the slug lookup followed by the gate |
| Profile.EditedUser | routes/profile.js:64-75 | the update sets bio and visibility when sent, the parsed interests, the contact links, and the photo when a file came, and no other path; a list-valued field makes it fail |
| Profile.EditedStore | routes/profile.js:77 | only the session user's document changes, as the update says |
| Profile.SkillPushed | routes/profile.js:93-95 | only that document changes, by one skill appended |
| Profile.ProjectPushed | routes/profile.js:109-111 | only that document changes, by one project appended |
| Profile.WithSkill | controllers/profileController.js:53-55 | one skill is appended at the end; earlier skills and every other path are unchanged |
| Profile.WithProject | controllers/profileController.js:68-70 | one project is appended at the end; earlier projects and every other path are unchanged |
| Profile.EditProfile | controllers/profileController.js:24-48 | the update and the success message, or the failure message and nothing written |
| Profile.AddSkill | controllers/profileController.js:50-63 | the skill is appended and the success message set, or, when `parseInt` gave `NaN` or a field is a list, the failure message and nothing written |
| Profile.AddProject | controllers/profileController.js:65-78 | the project is appended and the success message set, or the failure message and nothing written |
| Profile.ApprovedOnly | routes/profile.js:58-59 | the login guard, then the approval guard, each with its redirect and message |
| Profile.ModeratedEdit | routes/profile.js:60-87 | moderation, then the edit: only a clean text reaches the update, which saves the form with the success message and the error message as it was, or reports the failure; the success message changes only on a save |
| Profile.PostEdit | routes/profile.js:57-87 | the login and approval guards, then the photo filter, each stop the request with its message before any write, the success message as it was; past them the outcome is moderation's against the table as it stands, then the edit |
| Profile.PostSkill | routes/profile.js:90-103 | the guards stop the request with their messages; past them the skill is appended with no moderation, or the failure message and nothing written |
| Profile.ModeratedProject | routes/profile.js:106-119 | moderation, then the project append with the success message and the error message as it was, or the failure message and nothing written |
| Profile.PostProject | routes/profile.js:106-119 | the guards stop the request with their messages before any write, the success message as it was; past them the outcome is moderation's against the table as it stands, then the append |
| Admin.DashboardStats | routes/admin.js:13-16 | the four counts are the sizes of the students, pending, approved and rejected queries |
| Admin.StatusCountsPartition | routes/admin.js:14-16 | the three status counts add up to the number of accounts; the student count is at most that |
| Admin.RankedFlaggedProperties | routes/admin.js:17-18 | the ranking holds every user with a flagged attempt and no one else, most attempts first |
| Admin.FlaggedUsersProperties | routes/admin.js:17-19 | at most ten flagged users, most attempts first, and no flagged user left out has more attempts than one listed |
| Admin.PendingUsers | routes/admin.js:40 | exactly the pending accounts |
| Admin.StudentUsers | routes/admin.js:80 | exactly the student accounts |
| Admin.WithStatus | routes/admin.js:54 | the account gets the new status from any prior one; no other field or account changes |
| Admin.LastDecisionWins | routes/admin.js:52-75 | of two decisions on one account the later one stands |
| Admin.Decide | routes/admin.js:52-75 | approve or reject sets the status and the success message, or, for an id the store cannot cast, the failure message and nothing written |
| Admin.DeleteStudent | routes/admin.js:92-102 | deletion removes that account only, with the success message, or the failure message and nothing written |
| Admin.AddBannedWord | routes/admin.js:119-133 | the word's normal form is added with the success message; a duplicate gets "Word already exists in banned list" and a missing or empty word gets "Failed to add banned word", both with the table unchanged |
| Admin.DeleteBannedWord | routes/admin.js:136-146 | the entry is removed with the success message, or the failure message and the table unchanged |
| Admin.ShowPage | routes/admin.js:11-116 | each page renders what its queries return (counts and flagged users, pending accounts, students, the sorted words), or sends the admin on when a query throws |
| Admin.Submit | routes/admin.js:52-146 | approve and reject set the status (or nothing for an id the store cannot cast), delete removes exactly that account or word, in order, and an added word is stored in normal form last unless it is empty or already stored; each ends on its list page and touches no other collection |
| Admin.Handle | routes/admin.js:8-146 | anyone but a logged-in admin is sent home with the admin-only message and changes nothing; for an admin a page changes nothing and renders its view, and each form changes exactly the account or word its handler changes and redirects to its list page |
| Auth.ErrorsOf | routes/auth.js:43-50 | each check's error is reported iff that check fails, and none iff every check passes |
| Auth.ErrorsInChainOrder | routes/auth.js:43-50 | the reported errors are the chain's checks filtered to those that fail, in the chain's order |
| Auth.SignupErrors | routes/auth.js:44-49 | each message is reported iff its check fails: trimmed name empty, email invalid, email outside `@eng.psu.edu.eg`, password under 6 characters, trimmed student id empty |
| Auth.BadEmailReportsBoth | routes/auth.js:45-47 | a non-address email reports both email errors, in order |
| Auth.Messages | routes/auth.js:57 | one message per error, in order |
| Auth.FindDuplicate | routes/auth.js:66 | none iff no account has the normalised email or the student id |
| Auth.SignupDecisionMeaning | routes/auth.js:52-105 | validation errors come first, then a duplicate, then the missing document, then a failing `create`, each with its message; a registration is the pending student built from the trimmed fields, the hash and the document path |
| Auth.Registered | routes/auth.js:66-95 | a registration implies the form passed, no account shares its email or student id, and the account is built from the form |
| Auth.RegisteredAccountIsValid | routes/auth.js:88-95 | a registered account passes the schema's checks |
| Auth.SignupKeepsAccountsUnique | routes/auth.js:66-73 | registration keeps emails and student ids unique |
| Auth.CarryOut | routes/auth.js:54-105 | a refusal renders the form and writes nothing; a registration creates one account under a fresh id, last, and redirects to login |
| Auth.Signup | routes/auth.js:51-107 | a refusal re-renders the form and writes nothing; a registration adds exactly one pending account, last, changes no other, and redirects to login |
| Auth.PostSignup | routes/auth.js:41-107 | a refused upload ends the request before any write, the success message as it was; past it a refusal re-renders the form and writes nothing, and a registration appends exactly one account under a fresh id, sets the success message and redirects to login |
| Auth.LoginErrors | routes/auth.js:117-120 | no error iff the email is valid and the password non-empty, each error iff its check fails |
| Auth.FindByEmail | routes/auth.js:136 | the account with the normalised email, or none when no account has it |
| Auth.LoginDecisionMeaning | routes/auth.js:122-179 | an unknown email and a wrong password get the same message; login succeeds iff the password matches and the account is an admin or approved; admins go to the dashboard, others to their profile |
| Auth.FindByEmailAppended | routes/auth.js:136 | an account added after accounts with other emails is the one found for its email |
| Auth.FreshAccountIsPending | routes/auth.js:156-162 | right after signing up, the new account's own credentials are refused with "Your account is pending" |
| Auth.Login | routes/auth.js:116-189 | a refusal re-renders the form and leaves the session as it was; a success stores the session copy of the account, sets the message and redirects as the decision says |
| Auth.Logout | routes/auth.js:192-197 | the session is emptied and the visitor sent to `/` |

## Left out

- I/O, the database connection and the seeding in `config/db.js` are not part of
  this model. The stores are in memory. `BannedWords.DefaultWords` holds the
  seeded list as a constant.
- Template rendering is reduced to a `Response` value. Session cookies are
  reduced to the `Session` object.
- bcrypt hashing and comparison and the `isEmail` validator are parameters: a
  hash string, a `matches` function and an `isEmail` function. A signup whose
  hash is the empty string stands for a failing `create` and gets
  "Registration failed. Please try again.".
- `parseInt` is a parameter of `Profile.AddSkill`: the level as it returned, or
  `None` for `NaN`.
- Multer's storage (destination folders and file names built from the clock and
  a random number) is not modelled. The stored file name is an input.
- Store failures are modelled where the caller reacts to them: the moderation
  read and counter write (`readFails`, `incrementFails`), the admin pages' reads
  (`readFails`) and ids the store cannot cast (`Option` ids). Other write
  failures would only lead to the same failure messages.
- Concurrency: every request runs alone, so the `$inc` counter has no races.
- Case folding is ASCII only, and `\s` and `trim` use the ECMAScript white-space
  set. Unicode case mapping is not modelled.
- Banned words and slugs are assumed free of regular-expression metacharacters
  (`Moderation.AllLiteral`, `Text.IsLiteralPattern`). The source interpolates
  them unescaped, and general regex semantics are not modelled.
- Signup and login fields that arrive as lists are not modelled; the forms carry
  single strings.
- `GET /me`, `GET /edit` and the controller's `GetProfile`/`GetEdit` only render
  the session user's own document, and are not modelled.
- `Profile.ProfileByUsername` takes the lookup result as an input. The source
  queries a `username` path the schema does not have, and what that query returns
  depends on the Mongoose version.
- Updates do not run the schema's validators, so an edit can store any
  visibility string and a skill of any level. The model stores them as given.
- An update that leaves a field `undefined` is modelled as leaving the stored value
  as it was.
- The pending and student lists are sorted by `createdAt` in the source. The model
  keeps natural order, which is creation order, without the descending sort.
- `Admin.RankedFlaggedProperties`: ties in the flagged-user sort stay in natural
  order. The store does not promise any order for ties.
- `Auth.SignupErrors`: does not state that the reported errors are distinct.
- `Auth.ErrorsOf`: states membership only; the order of the errors is stated by
  `Auth.ErrorsInChainOrder`, kept apart so that every caller does not pay for it.
- `Auth.Login`: the `catch` branch of the login handler ("Login failed. Please
  try again.") is not modelled; the session store and `bcrypt.compare` are
  parameters that cannot throw here.
- `Profile.ViewProfileBySlug`: the route's `catch` (a failing `findOne`, or a slug
  that does not compile as a regular expression, redirects to `/`) is not
  modelled; slugs are taken as literal text and the store read cannot fail here.
- `public/js/main.js` (browser-side behaviour) and `routes/public.js` (routes to a
  controller that is not shown) are not part of this model.

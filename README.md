# Portfolio site: verified model of its server and client rules

The repository is a personal portfolio site with three back ends:

- a Cloudflare Workers API, under `src/`, over a D1 (SQLite) database;
- an Express server, `server.js` plus `routes/admin.js`, with a SQLite export script, `migrate-data.js`;
- a Flask application, `app.py`.

The site also has three browser scripts: the public AngularJS page (`public/script.js`), the business card (`public/business-card/script.js`), and the Flask templates' scripts (`static/js/script.js`, `static/js/admin.js`).

This project models the parts whose behaviour is a precise rule, and proves what those rules promise:

- the singleton-row upserts of the admin API, and which row a later read sees;
- the record field rules of the admin API: list parsing, project merge, certification type default, upload naming;
- the JWT middleware: token lookup in the `Authorization` header and the `auth_token` cookie, the compact form, the base64url mapping, and expiry;
- the login decision ladder and the hex password check;
- SQL literal escaping and INSERT generation in the export script;
- the two origin allow-lists;
- the vCard text and phone links of the business card;
- skill grouping and badge lookup on the public page;
- the Flask seeding, login gate and profile upsert;
- the Express `/admin` routes;
- the admin panel's form validator, list guard, sort direction and table search;
- the site script's clamp, breakpoints, menu, scroll, theme and contact-form state;
- the public Workers API: aggregate data and the contact handler's notification rule.

Layout:

- Shared modules: `Wrappers` (Option, Result), `Js` (JavaScript values and truthiness), `Text` (JavaScript and Python whitespace, `trim`, `split`/`join`, substring search, lower-casing, decimals), `Seqs`, `Store`, `Grouping`, `ListFields`, `EmailPattern`.
- `Store` models a SQL table as a class holding a sequence of rows with strictly increasing ids.
- `ORDER BY id DESC LIMIT 1` is `Store.Latest`, the row with the largest id. An unordered `LIMIT 1` is `Store.First`, the first row in storage order.
- Every other module follows one source file.
- Code that updates state in place is modelled as classes with `modifies` clauses: the tables, the export buffer, the page controllers, the managers of the site script.
- Code that only computes is modelled as functions and lemmas.

External code the model cannot see becomes a function parameter:

- crypto (HMAC signing and verification, SHA-256), `btoa`/`atob`;
- `JSON.parse`/`JSON.stringify`, `json.loads`/`json.dumps`;
- the password hash check;
- `parseFloat`, with `None` standing for NaN;
- `new URL(...)` succeeding, and `localeCompare`;
- the wall clock, passed in as a number;
- whether a mail or WhatsApp service accepts a request.

## Model

| member | source | states |
|---|---|---|
| Store.Latest | src/routes/admin.js:66-74 | `ORDER BY id DESC LIMIT 1`: none iff the table is empty, else a stored row whose id is the largest |
| Store.First | src/routes/admin.js:81 | an unordered `LIMIT 1`: none iff the table is empty, else the first stored row |
| Store.LatestIsLast | src/routes/admin.js:20 | with increasing ids the latest row is the last one stored |
| Store.FindById | src/routes/admin.js:256 | the row with the given id, none iff no row has it |
| Store.UpdateById | src/routes/admin.js:40-47 | an `UPDATE ... WHERE id = ?`: same ids and length, only the matching row's data replaced |
| Store.DeleteByIdSpec | src/routes/admin.js:152-163 | after a delete by id no row has that id, every other row is kept, nothing new appears, a missing id changes nothing |
| Store.DeleteKeepsIdsIncreasing | src/routes/admin.js:152-163 | deleting a row keeps the ids increasing |
| Store.Table.Insert | src/routes/admin.js:49 | an INSERT appends one row with a fresh id larger than all stored ids |
| Store.Table.Update | src/routes/admin.js:40-47 | the table becomes `UpdateById` of the old rows |
| Store.Table.Delete | src/routes/admin.js:155 | the table becomes `DeleteById` of the old rows |
| AdminRoutes.UpsertLatest | src/routes/admin.js:37-57 | update the highest-id row when one exists, else insert exactly one row |
| AdminRoutes.UpsertFirst | src/routes/admin.js:81-95 | update the first stored row when one exists, else insert exactly one row; the new table is `Upserted` of the old |
| AdminRoutes.Upserted | src/routes/admin.js:424-445 | on an empty table exactly the one new row; otherwise the same length, the first row rewritten with the new data and every row of another id unchanged |
| AdminRoutes.LatestSeesLatestUpdate | src/routes/admin.js:20-47 | after a latest-row upsert the latest-row read returns the written data |
| AdminRoutes.LatestMissesFirstUpdate | src/routes/admin.js:69-86 | with two or more rows, a first-row update of `about` is not what the latest-row read returns |
| AdminRoutes.LatestSeesFirstUpdateOfSingleRow | src/routes/admin.js:69-86 | with a single row the first-row update is read back |
| AdminRoutes.GetPersonalDetails | src/routes/admin.js:17-25 | the highest-id row, or nothing (`{}`) for an empty table |
| AdminRoutes.UpdatePersonalDetails | src/routes/admin.js:27-64 | full replace of the highest-id row or a single insert; the returned picture is the body's |
| AdminRoutes.PersonalDetailsReadBack | src/routes/admin.js:20-49 | after an update the getter returns exactly the body |
| AdminRoutes.UpdateAbout | src/routes/admin.js:76-98 | updates the first stored row or inserts one |
| AdminRoutes.Flag | src/routes/admin.js:432-433 | a flag is stored as 1 iff the body value is truthy, else 0 |
| AdminRoutes.StoredSettings | src/routes/admin.js:425-445 | flags stored as 0/1, e-mail and number stored as sent |
| AdminRoutes.GetNotificationSettings | src/routes/admin.js:410-418 | on a non-empty table, the data of the row with the highest id (`ORDER BY id DESC LIMIT 1`); both flags 0 and the other fields absent when the table is empty |
| AdminRoutes.UpdateNotificationSettings | src/routes/admin.js:420-455 | the table becomes `Upserted` of the normalised settings: the first stored row rewritten, or one inserted row |
| AdminRoutes.SettingsFlagsStayBinary | src/routes/admin.js:410-455 | if all stored flags are 0/1, they still are after the update, on both the update and the insert branch, and the getter reports 0/1 before and after |
| AdminRoutes.SettingsReadBack | src/routes/admin.js:410-455 | from an empty or single-row table the update leaves exactly one row and the getter returns exactly the saved settings |
| AdminRoutes.Responsibilities | src/routes/admin.js:118-120 | an array is kept, a string is split on newlines without blank lines, an absent field is an error |
| AdminRoutes.CreateExperience | src/routes/admin.js:114-130 | 500 with no change when responsibilities are absent, else one row appended with the parsed list |
| AdminRoutes.UpdateExperience | src/routes/admin.js:132-150 | 500 with no change when responsibilities are absent, else the row with that id is replaced |
| AdminRoutes.Tags | src/routes/admin.js:232-234 | an array is kept, a string is split on commas, trimmed, empties dropped; absent is an error |
| AdminRoutes.MergeProject | src/routes/admin.js:256-262 | title, description and tags from the body; image and CAD file keep the stored value when the body omits them |
| AdminRoutes.MergeProjectKeepsFiles | src/routes/admin.js:256-262 | over two successive edits each file is the later body's if sent, else the earlier body's if sent, else the stored one, the other fields the later body's; a body without files leaves both unchanged |
| AdminRoutes.CreateProject | src/routes/admin.js:228-244 | 500 when tags are absent, else one row appended with the parsed tags |
| AdminRoutes.UpdateProject | src/routes/admin.js:246-272 | 500 when tags are absent, 404 when the id is missing, else the row is replaced by the merge |
| AdminRoutes.CertificationType | src/routes/admin.js:303 | a falsy type becomes 'Certification', a truthy one is kept; the result is truthy |
| AdminRoutes.StoredCertification | src/routes/admin.js:303 | only the type is changed by the default |
| AdminRoutes.CreateCertification | src/routes/admin.js:297-308 | appends one row with the defaulted type |
| AdminRoutes.UpdateCertification | src/routes/admin.js:310-323 | replaces the row with that id by the body with the defaulted type |
| AdminRoutes.StoredCertificationTyped | src/routes/admin.js:318 | a stored certification always has a truthy type, and a typed body is stored unchanged |
| AdminRoutes.DeleteRoute | src/routes/admin.js:325-336 | the table becomes the old rows without that id |
| AdminRoutes.HandleUpload | src/routes/admin.js:457-486 | no file iff 400; otherwise the key is exactly the decimal timestamp, '-', the file name, and the url is '/uploads/' + the key |
| AdminRoutes.UploadKeyTimestamp | src/routes/admin.js:467-476 | whatever dashes the name holds, the key splits at its first '-' into the decimal timestamp, which parses back to the upload time, and the original name |
| ListFields.ParseTags | src/routes/admin.js:233 | the tags are non-empty, trimmed and comma-free |
| ListFields.ParseTagsJoin | src/routes/admin.js:233 | parsing the comma-join of clean tags gives them back |
| ListFields.ParseTagsSingle | src/routes/admin.js:233-234 | a comma-free string gives exactly its trimmed text as one tag, or no tag when that is empty |
| ListFields.ParseTagsCons | src/routes/admin.js:233-234 | `p,t` with comma-free `p` gives `p` trimmed (if non-empty) followed by the tags of `t`: every non-empty piece is kept, in order; with the same lemmas this is `routes/admin.js:106` |
| ListFields.ParseLines | src/routes/admin.js:119 | each kept line is non-blank, newline-free and one of the input's lines |
| ListFields.ParseLinesJoin | src/routes/admin.js:119 | parsing the newline-join of non-blank lines gives them back |
| ListFields.ParseLinesSingle | src/routes/admin.js:119-120 | a string without a newline is one line, kept untrimmed unless it is blank |
| ListFields.ParseLinesCons | src/routes/admin.js:119-120 | `p\nt` with newline-free `p` gives `p` (if not blank) followed by the lines of `t`: every non-blank line is kept, untrimmed, in order; the same split is `routes/admin.js:48` |
| ListFields.ListFromInput | src/routes/admin.js:118-120 | array kept, string parsed, absent field an error |
| ListFields.KeepNonBlankSpec | app.py:384-385 | the filter keeps exactly the entries with a non-blank `strip()`, in order, and keeps a clean list unchanged |
| ListFields.KeepNonBlankAppend | app.py:518-525 | filtering distributes over concatenation |
| ListFields.FromJson | app.py:22-28 | `[]` for a missing or empty value or invalid JSON, else the decoded list |
| ListFields.FromJsonRoundTrip | app.py:22-28 | a dumped list reads back as itself |
| ListFields.DecodeListColumn | src/routes/public.js:26 | `JSON.parse(x \|\| '[]')`: an empty column is `[]`, otherwise ok iff it parses |
| ListFields.DecodeListColumnRoundTrip | src/routes/public.js:26 | a stringified list decodes back to itself |
| ListFields.DecodeListColumns | src/routes/public.js:24-32 | ok iff every column decodes, and then each column's decoding in order |
| ListFields.MissingColumnsDecodeEmpty | src/routes/public.js:24-32 | all-empty columns decode to empty lists |
| JwtAuth.ToBase64Url | src/middleware/auth.js:76-79 | base64 becomes base64url with no padding and no longer |
| JwtAuth.FromBase64Url | src/middleware/auth.js:26 | the inverse mapping keeps length and yields pad-free base64 |
| JwtAuth.FromToBase64Url | src/middleware/auth.js:26-79 | mapping there and back gives the input without '=' |
| JwtAuth.ToFromBase64Url | src/middleware/auth.js:26-79 | a base64url string survives decode-then-encode mapping unchanged |
| JwtAuth.SplitCompact | src/middleware/auth.js:8-12 | a compact token of three dot-free parts splits back into them |
| JwtAuth.NoDotInBase64Url | src/middleware/auth.js:81 | base64url segments never hold a '.' |
| JwtAuth.CreateClaims | src/middleware/auth.js:54-59 | caller claims kept, `iat` is now in seconds, `exp` is `iat + expiresIn` |
| JwtAuth.ExpiryBoundary | src/middleware/auth.js:39-41 | expired iff `exp` is non-zero and strictly before now; `exp == now` and missing `exp` are accepted |
| JwtAuth.FreshClaimsNotExpired | src/middleware/auth.js:39-59 | a just-created token is not expired, and is once the clock passes `exp` |
| JwtAuth.VerifyJwt | src/middleware/auth.js:6-44 | not three parts is 'Invalid token format'; ok iff the signature verifies, the payload decodes and it is not expired |
| JwtAuth.CreateThenVerify | src/middleware/auth.js:46-82 | a token created at one time verifies, at any later time up to its `exp` second, to exactly the claims it was created with (payload plus `iat`/`exp`), and after that second fails with `Token expired` |
| JwtAuth.FindPrefixed | src/middleware/auth.js:97-98 | the index of the first piece with the prefix, none iff no piece has it |
| JwtAuth.CookieToken | src/middleware/auth.js:95-101 | a token is found iff some trimmed cookie pair starts with 'auth_token=', and it is the first such pair less its 11-character prefix |
| JwtAuth.TokenOf | src/middleware/auth.js:88-103 | a `Bearer ` header gives the header less its first seven characters; otherwise an absent or empty Cookie header gives no token, and a non-empty one gives its first `auth_token` pair's value (`CookieToken`), or no token when it has none |
| JwtAuth.BearerWins | src/middleware/auth.js:91-93 | a 'Bearer ' header wins over any cookie and its token is the rest of the header |
| JwtAuth.CookieAlone | src/middleware/auth.js:95-101 | without a bearer header, a lone cookie pair supplies its value |
| JwtAuth.CookieBehindOther | src/middleware/auth.js:95-101 | the auth cookie is found behind another cookie pair |
| JwtAuth.SecondPairToken | src/middleware/auth.js:97-100 | when only the second pair matches, its value after 11 characters is the token |
| JwtAuth.Secret | src/middleware/auth.js:111 | the configured secret, or the fixed development default |
| JwtAuth.Authenticate | src/middleware/auth.js:84-125 | no token gives 401 and no user; a verified token attaches the payload and continues; a failed one gives 401 |
| AuthRoutes.HexByte | src/routes/auth.js:21-22 | two lowercase hex digits whose value is the byte |
| AuthRoutes.Hex | src/routes/auth.js:21-22 | twice as many characters as bytes, all hex digits |
| AuthRoutes.UnhexHex | src/routes/auth.js:21-22 | the hex text decodes back to the bytes |
| AuthRoutes.ComparePassword | src/routes/auth.js:18-26 | for a digest of at least eight bytes, true iff some 16 characters of the stored hash are lower-case hex spelling the digest's first eight bytes, i.e. the first 16 hex characters of the SHA-256 digest; a hash without them fails |
| AuthRoutes.ComparePasswordDecodes | src/routes/auth.js:18-26 | `includes` of the 16-character hex prefix holds iff the hash spells the digest's first eight bytes somewhere, both directions |
| AuthRoutes.HexUnhex | src/routes/auth.js:22 | lower-case hex text comes back unchanged from the bytes it spells |
| AuthRoutes.StoredDigestPasses | src/routes/auth.js:26 | a stored hash holding the password's hex digest anywhere passes |
| AuthRoutes.FindUser | src/routes/auth.js:47-49 | a user with that name, none iff no such user |
| AuthRoutes.Login | src/routes/auth.js:29-113 | 500 `Server error` iff the body is not valid JSON or is `null` (destructuring it throws); any other JSON value arrives as its two properties, `undefined` when it has none; 400 iff a field is missing; success iff the user exists and the password matches or is the built-in admin pair; success returns that user, the JWT `createJWT` makes of `{userId, username}` with the session secret and a lifetime of 86400 seconds, and a cookie carrying it |
| AuthRoutes.PropertylessBodyMissingFields | src/routes/auth.js:33-44 | a JSON body without `username` and `password` properties gets 400 `Username and password required` |
| AuthRoutes.LoginTokenLasts24Hours | src/routes/auth.js:83-87 | the login token verifies, with the same secret, to `{userId, username, iat, exp}` of the user who logged in until its `exp` second, `iat + 86400`, and is refused with `Token expired` after it |
| AuthRoutes.UserClaimsKept | src/routes/auth.js:84-87 | the signed claims carry the user's id and name |
| AuthRoutes.DefaultAdminNeedsUser | src/routes/auth.js:51-59 | with no 'admin' row the built-in pair still gets 401 |
| AuthRoutes.TokenCharsAreSafe | src/routes/auth.js:92 | a base64url token has no ';' and no surrounding blanks |
| AuthRoutes.LoginCookiePair | src/routes/auth.js:92 | the cookie's first pair is 'auth_token=' + token |
| AuthRoutes.LoginCookieAuthenticates | src/routes/auth.js:92 | the cookie set by login is read back by the middleware as the same token |
| AuthRoutes.LogoutCookieUnauthorized | src/routes/auth.js:118 | the logout cookie is empty, so the middleware finds no token |
| MigrateData.DoubleQuotes | migrate-data.js:39 | the output grows by exactly one character per quote |
| MigrateData.ReadDoubleQuotes | migrate-data.js:39 | un-doubling the quotes recovers the string |
| MigrateData.EscapeSql | migrate-data.js:31-40 | null and undefined give `NULL`, numbers are unquoted, strings are quoted with length + 2 + quotes |
| MigrateData.EscapeRoundTrip | migrate-data.js:39 | reading the literal back gives the original string |
| MigrateData.InsertForSpec | migrate-data.js:60-63 | the INSERT never lists `id`, has as many values as columns in the same order, and lists every other field |
| MigrateData.TableStatements | migrate-data.js:59-65 | exactly one statement per row, so empty tables emit nothing |
| MigrateData.TableStatementsPerRow | migrate-data.js:59-65 | the i-th statement of a table is the INSERT of its i-th row |
| MigrateData.OneStatementPerRow | migrate-data.js:72-98 | the export has as many statements as rows over all tables |
| MigrateData.AllStatementsAppend | migrate-data.js:75-77 | tables are emitted in list order |
| MigrateData.Missing | migrate-data.js:44-49 | a table missing from the database fails the export |
| MigrateData.Exporter.ExportTable | migrate-data.js:42-70 | appends exactly that table's statements to the buffer |
| MigrateData.Exporter.ExportTables | migrate-data.js:75-77 | succeeds iff every table exists, appending all statements in order |
| MigrateData.Exporter.ExportAllTables | migrate-data.js:72-98 | content iff every fixed table exists; it is the header plus the statements |
| Cors.AllowedOrigins | src/middleware/cors.js:20-34 | the three fixed origins first, plus `FRONTEND_URL` when set |
| Cors.GetAllowedOrigins | src/middleware/cors.js:20-34 | the list has 4 entries when `FRONTEND_URL` is set, else 3 |
| Cors.SetCorsHeaders | src/middleware/cors.js:36-48 | echo the origin iff it is allowed, else the default headers; other fields equal in both branches |
| Cors.EchoIffAllowed | src/middleware/cors.js:40-45 | the origin is echoed iff it is in the allowed list |
| Cors.NoPrefixMatch | src/middleware/cors.js:40 | an extension of an allowed origin is not allowed |
| Cors.HandleCors | src/middleware/cors.js:13-18 | preflight is 204 with the default headers and `*` |
| ServerCors.FrontendUrl | server.js:22 | `FRONTEND_URL` or the deployed default |
| ServerCors.Whitelist | server.js:25-31 | localhost, the deployed site and `FRONTEND_URL` |
| ServerCors.CheckOrigin | server.js:34-50 | allowed iff no origin or an exact whitelist entry; otherwise 403 'Not allowed by CORS' |
| ServerCors.AllowedIffListed | server.js:42-44 | an origin passes iff it equals one of the three entries |
| ServerCors.NoPrefixMatch | server.js:42-44 | no prefix matching |
| BusinessCard.FirstName | public/business-card/script.js:97-98 | the text before the first space |
| BusinessCard.NameSplit | public/business-card/script.js:97-99 | first + ' ' + last is the name; a name without a space is all first name |
| BusinessCard.NamePartChars | public/business-card/script.js:97-99 | the name parts only hold characters of the name |
| BusinessCard.NLineComponents | public/business-card/script.js:108 | the N value reads back as last; first; and three empty components |
| BusinessCard.Title | public/business-card/script.js:102 | the job title, else the first line of the bio |
| BusinessCard.Org | public/business-card/script.js:103 | the company, else the fixed default |
| BusinessCard.TelNumber | public/business-card/script.js:59 | the tel number has no white space and keeps every other character of the phone |
| BusinessCard.WhatsAppNumber | public/business-card/script.js:62 | the wa.me number holds only, and all, the phone's digits |
| BusinessCard.PhoneNumbersPerCharacter | public/business-card/script.js:59-62 | both numbers are computed per character and concatenated in order: a space is dropped from the tel number and any other character kept; a digit is kept in the wa.me number and any other character dropped |
| BusinessCard.PhoneLinksAgree | public/business-card/script.js:59-62 | both links carry the same digits in order; a digits-only phone is used as is |
| BusinessCard.LinesSingle | public/business-card/script.js:105-119 | no card line contains a line break when no field does |
| BusinessCard.VCardLayout | public/business-card/script.js:105-119 | the card splits into its 15 lines, from BEGIN:VCARD and VERSION:3.0 to END:VCARD; the work e-mail line is present iff `work_contact` is set |
| BusinessCard.Card.GenerateVCard | public/business-card/script.js:95-120 | the stored card text becomes the generated card |
| BusinessCard.DownloadName | public/business-card/script.js:138 | ends in '.vcf', no whitespace, 'contact.vcf' for no name, the name itself when it has no whitespace |
| BusinessCard.DownloadNameSpaceRun | public/business-card/script.js:138 | a maximal white-space run of the name becomes exactly one `_`, the parts around it being replaced on their own |
| Text.ReplaceSpaceRunsAppend | public/business-card/script.js:138 | cut after a non-blank character, the two sides of `replace(/\s+/g, r)` are independent |
| Text.ReplaceSpaceRunsJoin | public/business-card/script.js:138 | a maximal white-space run between non-blank text becomes exactly one replacement character |
| PublicSite.FindBadge | public/script.js:105 | the first certification of type 'Badge', none iff there is none |
| PublicSite.MainController.ToggleMobileMenu | public/script.js:56-58 | the menu flag flips and nothing else changes |
| PublicSite.MainController.CloseMobileMenu | public/script.js:60-62 | the menu is closed and nothing else changes |
| PublicSite.MainController.OpenModal | public/script.js:65-69 | the modal shows the chosen project |
| PublicSite.MainController.CloseModal | public/script.js:71-75 | the modal is hidden and the selection cleared |
| PublicSite.MainController.OnScroll | public/script.js:121-125 | scrolled iff the offset is above 50 |
| PublicSite.MainController.GroupSkills | public/script.js:113-118 | keys are exactly the categories, each group is the input's skills of that category in order, the categories recorded in first-appearance order |
| PublicSite.MainController.Load | public/script.js:98-106 | skills and certifications stored, skills grouped with their category order, the badge found |
| Grouping.GroupBy | public/script.js:114-117 | keys are the categories present, each group the items of its key in input order, and the insertion order of the keys is `KeyOrder` |
| Grouping.KeyOrderKeys | public/script.js:114-117 | the ordered keys are exactly the keys present |
| Grouping.KeyOrderDistinct | app.py:283-287 | each key is inserted once |
| Grouping.KeyOrderFirstAppearance | app.py:283-287 | a key inserted earlier first occurs in the input before any item of a key inserted later |
| Grouping.ItemInOwnGroup | public/script.js:114-117 | every item is in the group of its own key |
| Grouping.GroupKeyOccurs | public/script.js:114-117 | a non-empty group's key is a category present |
| Grouping.GroupSizesSum | public/script.js:114-117 | group sizes add up to the input length |
| Grouping.GroupKeepsSorted | app.py:278-287 | groups of a sorted list are sorted |
| FlaskApp.NextUserId | app.py:119-126 | a new user's id is above every stored id |
| FlaskApp.SeedFills | app.py:114-271 | after seeding an admin user exists and no seeded table is empty; tables with rows are untouched |
| FlaskApp.SeedIdempotent | app.py:119-217 | seeding twice adds nothing more |
| FlaskApp.Site.InitDb | app.py:114-271 | the database becomes the seeded one |
| FlaskApp.AdminGate | app.py:321-322 | a redirect to the login page iff the session lacks the admin flag |
| FlaskApp.FindUser | app.py:302 | the first user with the name, none iff there is none |
| FlaskApp.AdminLogin | app.py:297-311 | login succeeds iff the user exists, the hash matches and the user is admin; the session then holds the id and the flag |
| FlaskApp.Logout | app.py:313-317 | a cleared session is stopped by the gate |
| FlaskApp.LoginOpensGate | app.py:303-322 | a successful login opens the gate; with no admin users login never does |
| FlaskApp.UpsertProfileSpec | app.py:344-364 | all twelve form columns (name, title, description, e-mail, phone, location, the three URLs, years, projects, companies) land in the first row; its image and resume survive, or are NULL in a created row; every other row is kept; at most one row is added |
| FlaskApp.UpsertProfileTwice | app.py:344-364 | a second POST wins on every form column without growing the table again |
| FlaskApp.Site.AdminProfile | app.py:339-368 | without the admin flag a redirect and no change; else the first-row upsert on the profile table, every other table unchanged |
| FlaskApp.SkillsByCategory | app.py:283-287 | keys are the categories, each list the skills of that category in order, sorted when the input is, and the dictionary's key order is first appearance (`KeyOrder`) |
| ExpressAdmin.RequireLogin | routes/admin.js:6-13 | 401 'Unauthorized' iff the session has no user |
| ExpressAdmin.GetAbout | routes/admin.js:16-21 | 401 without a user, else the highest-id row or nothing |
| ExpressAdmin.PostAbout | routes/admin.js:23-32 | 401 with no change, or 200 with one row appended |
| ExpressAdmin.LatestPostWins | routes/admin.js:16-32 | after a POST the GET returns the posted row |
| ExpressAdmin.Responsibilities | routes/admin.js:48 | a string splits into its non-blank lines; anything else fails |
| ExpressAdmin.StoredExperience | routes/admin.js:48-51 | the list is stored as its JSON text, with the other fields from the body |
| ExpressAdmin.AddExperience | routes/admin.js:46-57 | 401, 500 for a non-string list, or 200 with one row appended |
| ExpressAdmin.NewestFirst | routes/admin.js:36 | `ORDER BY id DESC`: the rows in reverse storage order |
| ExpressAdmin.NewestFirstDescending | routes/admin.js:36 | ids strictly decrease in the result |
| ExpressAdmin.NewestDecoded | routes/admin.js:36-43 | ok iff every row's list column decodes (NULL or empty as `[]`), and then every row exactly once, newest first, each with its decoded list; otherwise 500; on a table whose ids increase, the listed ids strictly decrease |
| ExpressAdmin.GetExperience | routes/admin.js:35-44 | 401 without a user, 500 iff a list fails to parse, else newest first with each list decoded; on a table whose ids increase, the listed ids strictly decrease |
| ExpressAdmin.ExperienceRoundTrip | routes/admin.js:35-57 | after adding an entry, GET lists it first with the parsed lines |
| ExpressAdmin.AddSkill | routes/admin.js:74-83 | 401 with no change, or 200 with one row appended |
| ExpressAdmin.Tags | routes/admin.js:106 | a string splits on commas, trimmed, empties dropped; anything else fails |
| ExpressAdmin.StoredProject | routes/admin.js:106-109 | the tag list is stored as its JSON text, with the other fields from the body |
| ExpressAdmin.AddProject | routes/admin.js:104-115 | 401, 500 for non-string tags, or 200 with one row appended |
| ExpressAdmin.GetProjects | routes/admin.js:93-102 | 401 without a user, 500 iff a tag list fails to parse, else newest first with each tag list decoded; on a table whose ids increase, the listed ids strictly decrease |
| ExpressAdmin.ProjectRoundTrip | routes/admin.js:93-115 | after adding a project, GET lists it first with the kept tags |
| ExpressAdmin.DeleteRow | routes/admin.js:59-64 | 401 with no change, or 200 with only the row of that id removed |
| EmailPattern.FirstAt | static/js/admin.js:164 | the position of the first '@' |
| EmailPattern.CheckMatches | static/js/admin.js:162-167 | the direct check accepts exactly the strings matching `^[^\s@]+@[^\s@]+\.[^\s@]+$` |
| EmailPattern.MatchesShape | static/js/admin.js:164 | in a match the '@' is the first one and every other character is plain |
| AdminPanel.BadEmailIsMismatch | static/js/admin.js:162-167 | a non-empty e-mail field fails iff the pattern does not match |
| AdminPanel.ValidateField | static/js/admin.js:150-199 | valid iff no check fails; each failing check's message; an empty message when valid |
| AdminPanel.NumberBoundsInclusive | static/js/admin.js:181-195 | a number passes iff min <= value <= max, bounds included |
| AdminPanel.EmptyOptionalValid | static/js/admin.js:156-195 | an empty optional field is valid whatever its type |
| AdminPanel.DynamicList.AddItem | static/js/admin.js:45-60 | one empty entry appended |
| AdminPanel.DynamicList.RemoveItem | static/js/admin.js:63-76 | an entry is removed only when more than one is left, and then exactly that entry goes; a one-entry list is kept as it is |
| AdminPanel.ClicksAlternate | static/js/admin.js:276-289 | a second click on a column reverses the direction; a click elsewhere sorts ascending next |
| AdminPanel.CompareCellsSpec | static/js/admin.js:292-306 | descending is ascending with the cells swapped; numeric cells order by value |
| AdminPanel.DataTable.constructor | static/js/admin.js:241-266 | all indicators unsorted, all rows shown, search only for more than five rows |
| AdminPanel.DataTable.SortClick | static/js/admin.js:269-289 | the direction is descending iff the column showed the up arrow; other indicators reset |
| AdminPanel.DataTable.Search | static/js/admin.js:338-350 | a row is shown iff its lower-cased text contains the lower-cased term |
| AdminPanel.SearchSpec | static/js/admin.js:338-350 | the search ignores case and an empty term shows every row |
| SiteScript.Clamp | static/js/script.js:46-48 | never above hi, not below lo when lo <= hi, the value itself when in range |
| SiteScript.BreakpointsPartition | static/js/script.js:30-40 | every width is exactly one of mobile, tablet, desktop |
| SiteScript.MobileNavigation.OpenMenu | static/js/script.js:359-378 | the menu opens and the body is locked |
| SiteScript.MobileNavigation.CloseMenu | static/js/script.js:380-399 | the menu closes and the body is unlocked |
| SiteScript.MobileNavigation.ToggleMenu | static/js/script.js:350-357 | the menu state flips |
| SiteScript.LastCovering | static/js/script.js:504-520 | the id of the last section covering the position, none iff none covers |
| SiteScript.DisjointSectionsPickCover | static/js/script.js:514-517 | with non-overlapping sections the covering one is picked |
| SiteScript.Navigation.UpdateActiveNavigation | static/js/script.js:504-520 | the active link is the last covering section, unchanged when none covers |
| SiteScript.Navigation.HandleScroll | static/js/script.js:470-501 | scrolled iff > 100; off mobile hidden iff scrolling down past 200; indicator hidden iff > 300; last position recorded |
| SiteScript.Navigation.constructor | static/js/script.js:404-415 | the state `handleScroll` leaves from a last position of 0: scrolled iff > 100, off mobile hidden iff > 200, indicator hidden iff > 300, the active link the last covering section |
| SiteScript.Theme.constructor | static/js/script.js:530-537 | the saved theme, else the system preference |
| SiteScript.Theme.SetTheme | static/js/script.js:539-552 | the theme is applied and saved |
| SiteScript.Theme.ToggleTheme | static/js/script.js:575-578 | light and dark alternate |
| SiteScript.ContactEmailIsPattern | static/js/script.js:1001-1002 | an e-mail field is valid iff the trimmed value matches the pattern; a blank one never is |
| SiteScript.ValidateContactField | static/js/script.js:994-1018 | valid iff the field's rule holds (pattern, 2 or 10 trimmed characters), with its message otherwise |
| SiteScript.SubmitGate | static/js/script.js:1060-1074 | every field is validated, and submission proceeds iff all are valid |
| PublicRoutes.GetAllData | src/routes/public.js:7-47 | ok iff all lists decode, else 500; `about` is the first row or `{}`; lists decoded in order |
| PublicRoutes.MissingListsDefault | src/routes/public.js:23-32 | empty tables and missing lists give `{}` and empty lists |
| PublicRoutes.EmailRequest | src/routes/public.js:130-170 | a Mailgun request iff key and domain are set, addressed to the configured e-mail with the sender as reply-to |
| PublicRoutes.WhatsAppRequest | src/routes/public.js:173-202 | nothing iff any Twilio setting is missing, else a message to 'whatsapp:' + number |
| PublicRoutes.Notifications | src/routes/public.js:80-108 | no settings row sends nothing; an e-mail is sent only when wanted, and always when wanted and Mailgun is configured, to the configured address with subject 'New Contact: ' + subject and reply-to the sender; likewise a WhatsApp message to 'whatsapp:' + the configured number; at most two requests, e-mail first |
| PublicRoutes.ConfiguredSendsWanted | src/routes/public.js:84-108 | with both services configured, an e-mail is sent iff wanted and a WhatsApp message iff wanted, one request each |
| PublicRoutes.HandleContact | src/routes/public.js:67-127 | bad body or failed insert gives 500 'Database error' and no sends; otherwise the message is stored, the notifications go out, and the answer is success whatever the services do |

## Left out

- Cryptography: HMAC signing and verification, SHA-256, and bcrypt/`check_password_hash` are parameters. `btoa`/`atob` are parameters too; only the base64url character mapping is modelled.
- FlaskApp.Site.AdminProfile: the model takes a complete form whose numbers are already converted. In the source a missing `name`, `title`, `description`, `email` or `location` key answers 400 (app.py:351-356), and an empty or non-numeric `years_experience`, `projects_completed` or `companies_worked` makes `float()`/`int()` raise, so 500 and nothing is committed (app.py:360-362). `FlaskApp.AdminLogin` likewise takes both fields present; a missing `username` or `password` key answers 400 (app.py:299-300).
- JSON encoding and decoding are parameters, with a failure case. A list column that is not a JSON array of strings counts as a parse failure.
- The network: Mailgun and Twilio calls become the request they would send, and a `delivered` parameter stands for their acceptance. `services/notificationService.js` is not part of this model.
- The `sendEmailNotification` body text: it is not modelled beyond subject and reply-to, and the WhatsApp text is not proved about.
- Database driver errors other than the contact insert, D1/SQLite typing, and the schema (`database.js`, the `update_db_*.js` migrations) are not part of this model.
- Concurrent requests are not modelled; each handler runs alone on the state it is given.
- DOM rendering, animation, parallax, ripple, IntersectionObserver, `debounce`/`throttle` and timers are left out. The 300 ms fade before a list item is removed is left out.
- Floating point: JavaScript numbers are integers in the model (reals in the clamp and the comparator). `parseFloat` is an abstract `string -> Option<real>`.
- The sort itself: `Array.prototype.sort` with the mixed numeric/locale comparator is not a consistent order, so its result is implementation-defined. The comparator and the direction are modelled; the reordering is not.
- `new URL(...)` is a parameter, not a URL parser. `localeCompare` is a parameter too.
- The QR code, clipboard and share buttons of the business card are left out. `REV` is a parameter, not the clock.
- Text encoding: strings are sequences of characters. UTF-16 lengths, surrogate pairs and case folding beyond ASCII are left out, and `toLowerCase` is ASCII-only in the model.
- JwtAuth.Expired: `exp` is missing, null, a boolean, a number or a string; `true` is compared as 1 (`false`, like null, counts as missing) and a string through a `toNumber` parameter, whose NaN never expires. The value type has no array or object case: in JavaScript an array `exp` is truthy and compares through its primitive value (`[]` as 0, so it has always expired; `[5]` as 5) and a plain object as NaN, which never expires.
- BusinessCard.VCardLayout: the card fields are plain strings; JavaScript's `undefined`/`null` fallbacks to `''` are assumed applied by the caller.
- PublicRoutes.Notifications: a WhatsApp number that is not a string is sent as an empty number (the source would interpolate its JavaScript text).
- ExpressAdmin.AddExperience: a body field that is not a string makes `split` throw, which Express would turn into an error response; the model answers 500 and stores nothing.
- ExpressAdmin.GetExperience and ExpressAdmin.GetProjects: a `JSON.parse` failure inside the query callback would crash the callback; the model answers 500.
- AdminPanel.DynamicList.RemoveItem: the entry goes at once. The source removes it 300 ms after the click, and the `children.length > 1` test runs at the click, so two clicks on a two-entry list within the fade both pass and can leave the list empty; the model's guarantee that one entry stays is stronger than the source's.
- AuthRoutes.FindUser: a username that is not a string never matches. SQLite would compare a number against the TEXT `username` column after converting it to text, so `{"username": 123}` could match a user named `123`.
- AuthRoutes.Login: in the model the 500 `Server error` answer is reached only by a body that is not valid JSON or is `null`; a number, string, boolean or array body reaches the 400 branch as `LoginBody(Undefined, Undefined)`. In the source a thrown database or crypto error also ends there; the model's lookups and signing do not fail.
- PublicSite.MainController.GroupSkills: the category order is insertion order. JavaScript lists integer-like object keys (a category named `2024`) first, in numeric order; the model does not. A category named like an inherited `Object.prototype` member (`constructor`, `toString`, `valueOf`, `hasOwnProperty`, `__proto__`) is not modelled either: there `acc[category] || []` picks up the inherited value, `push` then throws a TypeError and the grouping aborts (public/script.js:115); the model groups such a category like any other.
- The Express GET routes for skills and messages, and the session and static-file wiring of `server.js`, only read rows and are left out.
- `routes/index.js` dispatches notifications after responding; its rule is the one of `src/routes/public.js`, modelled once.
- `updateActiveNavigation` assumes every section has a matching nav link; a missing link is not modelled.
- The default experience, skill and project rows seeded by `init_db` keep only the columns the model uses; their descriptions and responsibility lists are left out.
- Upload storage (R2) and the file system writes of `migrate-data.js` and `update_html.py` are not part of this model; the export result is returned as text.
- The admin and login pages' fetch wrappers and UI scripts (`admin/js/*.js`, `src/admin/script.js`, `src/login/script.js`) are not part of this model.

# A Dafny model of the menu-analysis scraper and its forms

This project models the computational core of a restaurant menu-analysis
service and of three pages of its front end.

The service's `scrape` handler works in these steps:

1. It opens the food-delivery site's search page for a dish.
2. It watches the requests the page issues and keeps the last one aimed at
   the site's search API (URL containing `v3?`).
3. It replays that request with its own latitude, longitude and dish set in
   the query.
4. It digs the dish cards out of the JSON reply, normalises them, and drops
   cards that are not dishes or have no rating.
5. It answers with price analytics (cheapest, dearest and mean price, and
   two scatter series) and the five best-rated cards.

The front-end part covers:

- the e-mail and password expressions of the server's validators;
- the login form (field edits, validation, the submit gate);
- the two-step sign-up form (per-step validation, step moves, the
  restaurant-type picker);
- the menu builder: adding, removing and editing rows, the category view,
  and the item and category counts.

Modules, one per concern:

| module | file | what it models |
|---|---|---|
| `Base` | base.dfy | `Option`/`Result`, substring search, `indexOf`, `join`, `Min`/`Max` |
| `Json` | json.dfy | parsed JSON values, JavaScript truthiness, `?.` reads, `String(x)` |
| `Seqs` | seqs.dfy | `filter`, `map`, index picking, and lemmas about them |
| `Capture` | capture.dfy | the request interceptor |
| `SearchParams` | searchparams.dfy | URL splitting, query parsing and serialising, `searchParams.set` |
| `Extract` | extract.dfy | `extractCardsArray` |
| `Cards` | cards.dfy | `processCards` |
| `Rating` | rating.dfy | `parseFloat(x) \|\| 0` on ratings, in tenths |
| `Analysis` | analytics.dfy | `calculateAnalytics` |
| `Sorting` | sorting.dfy | stable descending sort by an integer key |
| `TopRated` | toprated.dfy | `prepareTopRatedCards` |
| `Scrape` | scrape.dfy | the handler: defaults, capture, replay, status choice |
| `Email` | email.dfy | `emailRegex`, with a flat description of the language it accepts |
| `Password` | password.dfy | `strongRegex`, with a flat description and a one-pass checker |
| `Forms` | forms.dfy | the shared `handleChange` of the forms |
| `Login` | login.dfy | the login form |
| `Signup` | signup.dfy | the two-step sign-up form |
| `Menu` | menu.dfy | the menu builder's item list and statistics |

The browser and the HTTPS client are function parameters of `Scrape.Run`:

- `browse` maps the search-page URL to the requests the page issued, or to a
  navigation failure;
- `fetch` maps the replay URL to a parsed body, or to a failure.

An exception anywhere in the pipeline is an `Err`/`Thrown` value. The
handler's error path turns it into status 500 with the `APIError` default
description, "internal server error": the error handler reads the thrown
error's `description`, which a plain `Error` does not have.

Where the written description of the system and the code disagree, the
model follows the code:

- A card whose `@type` is a defined value other than a string or an array
  (a number, say) makes `includes` throw inside the first `filter`. That
  aborts the whole batch with a 500, although the description says one bad
  card never aborts the batch.
- A navigation error skips `browser.close()`, so the browser is not always
  released.

## Model

| member | source | states |
|---|---|---|
| Capture.CaptureFromIsLastMatch | src/controllers/scapperController.js:19-29 | Running the request handler over a stream of requests, from any starting value, leaves the last matching request, or the starting value when none matches |
| Capture.CaptureIsLastMatch | src/controllers/scapperController.js:15-37 | The captured request is the last one whose URL contains `v3?`; nothing is captured exactly when no URL contains it |
| Capture.LastIndex | src/controllers/scapperController.js:19-29 | Reference definition of the interceptor's choice: a matching position with no matching position after it, or none when nothing matches |
| SearchParams.Split | src/controllers/scapperController.js:42 | `split` yields at least one piece; no piece holds the separator, every piece's characters come from the input, and joining the pieces back with the separator gives the input |
| SearchParams.Set | src/controllers/scapperController.js:44-46 | `set` leaves exactly one pair of that name, holding the new value, at the position of the first old one, or appended when there was none; it introduces no other pair |
| SearchParams.Drop | src/controllers/scapperController.js:44-46 | Removing the pairs named in a set keeps exactly the pairs of the input whose name is outside the set, so none named in the set remains |
| SearchParams.SetKeepsOthers | src/controllers/scapperController.js:44-46 | Pairs of names outside the set being rewritten keep their values and relative order through `set` |
| SearchParams.SetOtherName | src/controllers/scapperController.js:44-46 | Setting one name does not change the count or the first value of any other name |
| SearchParams.RewriteOverrides | src/controllers/scapperController.js:42-46 | After the three overrides, `lat`, `lng` and `str` each occur once with the new value; all other pairs are unchanged and in order |
| SearchParams.ParseSerialize | src/controllers/scapperController.js:42-50 | Parsing a serialised query gives back the pairs, for pairs whose names avoid `&` and `=` and whose values avoid `&` |
| SearchParams.ParseShape | src/controllers/scapperController.js:42 | The query parser yields only well-formed pairs, and a character absent from the query is absent from every name and value |
| SearchParams.SplitUrl | src/controllers/scapperController.js:42 | The part before the query holds no `?` or `#`, and the query holds no `#` |
| SearchParams.UrlRoundTrip | src/controllers/scapperController.js:42-50 | Cutting a URL into the part before the query, the query and the fragment, then joining them, gives the URL back |
| SearchParams.SplitComposed | src/controllers/scapperController.js:42-50 | Joining parts that avoid the separators and then cutting the result gives the parts back |
| SearchParams.ReplayUrlQuery | src/controllers/scapperController.js:41-50 | The replay URL keeps the captured URL's prefix and fragment, and its query parses to the captured pairs with the three overrides applied |
| Extract.FirstExposing | src/controllers/scapperController.js:86-90 | The scan stops at the first group exposing dish cards; every earlier group exposes none |
| Extract.ExtractCards | src/controllers/scapperController.js:78-94 | The fixed position wins when it exposes dish cards. The extractor throws exactly when the card groups are truthy but neither an array nor a string. Otherwise the result is truthy dish cards or the empty array, and it is the empty array when nothing sits at the fixed position and the groups are absent, falsy or a string |
| Extract.ExtractFallsBackToScan | src/controllers/scapperController.js:84-93 | Over an array of groups, the first group exposing dish cards supplies them; when none does, the result is `[]` |
| Cards.FilterEligible | src/controllers/scapperController.js:99-104 | The first filter throws exactly when some card's type test throws; otherwise it keeps exactly the eligible cards, in order |
| Cards.ProcessCards | src/controllers/scapperController.js:97-134 | A non-array input throws; a result is no longer than the input, and every returned card has its rating trio present |
| Cards.ProcessCardsSelects | src/controllers/scapperController.js:97-134 | `processCards` throws exactly when a type test throws; otherwise it returns the normalised form of exactly the cards passing both filters, in input order |
| Cards.RatedIffRatingsPresent | src/controllers/scapperController.js:117-119 | The rating gate drops a card exactly when one of its raw rating, count or v2 count is falsy |
| Cards.SelectedPrice | src/controllers/scapperController.js:113 | A surviving card's price is the raw numeric price, or 0 when the raw price is falsy |
| Rating.RatingKeyOfNumber | src/controllers/scapperController.js:191-192 | A numeric rating is read exactly: its key is ten times the number |
| Rating.RatingKeyOfDecimal | src/controllers/scapperController.js:191-192 | A rating string `W.T` is read as `10*W+T` tenths |
| Analysis.MinIsFirstCheapest | src/controllers/scapperController.js:142-148 | `min` is a card no dearer than any other, and every card before it is strictly dearer |
| Analysis.MaxIsFirstDearest | src/controllers/scapperController.js:142-148 | `max` is a card no cheaper than any other, and every card before it is strictly cheaper |
| Analysis.AvgPriceBetween | src/controllers/scapperController.js:138-151 | With no negative price, the mean of the positive prices lies between the cheapest and the dearest card's price |
| Analysis.SeriesFollowCards | src/controllers/scapperController.js:153-163 | Both scatter series have one point per card, in card order; each rating point carries the card's rating key, and each distance point its `lastMileTravel` |
| Analysis.CalculateAnalytics | src/controllers/scapperController.js:137-184 | Throws exactly on an empty card list; otherwise the reported minimum price is at most the maximum |
| Analysis.AnalyticsExtremes | src/controllers/scapperController.js:142-179 | Every card's price lies between the reported `min` and `max`, which summarise the first cheapest and the first dearest card |
| Sorting.SortDescending | src/controllers/scapperController.js:188-193 | The sorted copy is in non-increasing key order and is a permutation of the input |
| Sorting.SortStable | src/controllers/scapperController.js:188-193 | Elements of equal key keep their input order |
| Sorting.InsertStable | src/controllers/scapperController.js:188-193 | Inserting an element puts it before the elements of its own key and keeps every key's elements in order |
| Sorting.TopOf | src/controllers/scapperController.js:188-194 | The first `n` sorted elements are descending and drawn from the input, and no element left out outranks a kept one |
| TopRated.TopRatedSelection | src/controllers/scapperController.js:187-194 | The kept cards are in non-increasing rating order and drawn from the input, and no omitted card outranks a kept one |
| TopRated.TopRatedEntries | src/controllers/scapperController.js:194-206 | `min(5, n)` entries come back; each is a reshaped kept card whose image URL is the CDN prefix followed by its image id |
| TopRated.TopRatedStable | src/controllers/scapperController.js:188-193 | Cards of equal rating come back in input order |
| Scrape.OrDefault | src/controllers/scapperController.js:211 | A destructuring default applies only when the parameter is absent |
| Scrape.Respond | src/controllers/scapperController.js:215-251 | Status is 404 exactly when nothing was captured, 500 exactly when a stage threw, and 200 exactly when cards were processed; an empty card list gives the "no cards" payload, and a non-empty one the report; a thrown error answers with the description "internal server error", not its own message; the 404 carries "v3 API request not found" and no data, and each 200 its own message |
| Scrape.ReportContents | src/controllers/scapperController.js:237-251 | A report carries the analytics of all processed cards and exactly the top-rated selection of them (`min(5, n)` cards, best rated first, ties in processing order); its `min` and `max` prices bound every card's price |
| Scrape.NoGroupsNoCards | src/controllers/scapperController.js:85-93 | A reply with nothing at the fixed position and no groups to scan ends in the 200 answer "No valid cards found to process" with no cards |
| Scrape.NotFoundIffNoApiRequest | src/controllers/scapperController.js:213-219 | The handler answers 404 exactly when the page loaded and none of its requests had `v3?` in its URL |
| Scrape.ReplaysLastApiRequest | src/controllers/scapperController.js:211-223 | The replay goes to the last API request's URL with the query's coordinates and dish set on it |
| Scrape.AbsentParametersDefault | src/controllers/scapperController.js:211 | A request without parameters behaves as one giving `28.65420`, `77.23730` and `Biryani` |
| Email.LocalPartShape | src/validators/userValidator.js:4-5 | The local part the expression accepts is exactly a non-empty run of word characters and dots that neither starts nor ends with a dot and has no two dots in a row |
| Email.DomainPartShape | src/validators/userValidator.js:4-5 | The domain accepted is exactly: letters, digits, hyphens and dots, starting with a letter or digit, every dot followed by a letter or digit, and at least two letters after the last dot |
| Email.EmailShape | src/validators/userValidator.js:4-5 | The expression accepts exactly an `@` with an accepted local part before it and an accepted domain after it |
| Email.SingleAt | src/validators/userValidator.js:4-5 | An accepted address holds exactly one `@` |
| Email.CaseInsensitive | src/validators/userValidator.js:4-5 | Under the `i` flag, lower-casing the ASCII letters of an address never changes the verdict |
| Email.LowerKeepsClasses | src/validators/userValidator.js:4-5 | Lower-casing a character keeps it in or out of each class the expression uses |
| Password.StrongRegexMeaning | src/validators/userValidator.js:3 | The expression accepts exactly the strings of at least 8 UTF-16 code units (a character outside the Basic Multilingual Plane counts twice), no character a line terminator, holding a digit, one of `!@#$%^&*`, a lower-case and an upper-case ASCII letter |
| Password.LookAheadInLine | src/validators/userValidator.js:3 | On a string without line terminators, each look-ahead holds exactly when some character of its class is present |
| Password.ShortRejected | src/validators/userValidator.js:3 | Fewer than eight UTF-16 code units are always rejected |
| Password.SevenAstralCharsAccepted | src/validators/userValidator.js:3 | `.{8,}` counts code units: a seven-character password with one character outside the Basic Multilingual Plane is accepted |
| Password.AppendKeepsStrong | src/validators/userValidator.js:3 | Appending characters that are not line terminators to an accepted password keeps it accepted |
| Password.CheckPassword | src/validators/userValidator.js:3 | A left-to-right scan for the four classes and line terminators, with a count of UTF-16 code units, decides the expression |
| Forms.HandleChange | frontend/src/pages/Login.jsx:54-68 | The edited field takes the value; its error stops showing; other errors and the set of error keys are kept |
| Forms.HandleChangeLocal | frontend/src/pages/Signup.jsx:24-38 | Editing a field leaves every other field's value and error as it was |
| Login.ValidateForm | frontend/src/pages/Login.jsx:70-84 | The email key is set exactly when the address fails the grammar, and the password key exactly when the password is empty; no other key is set |
| Login.ValidateFormMessages | frontend/src/pages/Login.jsx:74-84 | An empty address is "required" without the grammar being consulted, a rejected one is "invalid", and an empty password is "required" |
| Login.IsValid | frontend/src/pages/Login.jsx:86-87 | The form is valid exactly when the address fits the grammar and a password is given |
| Login.Submit | frontend/src/pages/Login.jsx:90-96 | Submitting replaces the errors with the validation result and passes the credentials on exactly when the form is valid |
| Signup.LooseEmailMeaning | frontend/src/pages/Signup.jsx:67 | `/\S+@\S+\.\S+/` finds a match somewhere exactly when some `@` has a non-space character just before it and is followed by a non-empty run of non-space characters, then a `.`, then a non-space character |
| Signup.Put | frontend/src/pages/Signup.jsx:55-83 | Recording a check's message sets only that key, and only when the check failed |
| Signup.NameError | frontend/src/pages/Signup.jsx:58-62 | The name is reported exactly when its JavaScript `length` (UTF-16 code units) is below four |
| Signup.TwoAstralCharsName | frontend/src/pages/Signup.jsx:60 | Two characters outside the Basic Multilingual Plane make a name long enough, since `length` counts code units |
| Signup.EmailError | frontend/src/pages/Signup.jsx:65-69 | The address is reported exactly when the loose pattern finds no match |
| Signup.PasswordError | frontend/src/pages/Signup.jsx:72-76 | The password is reported exactly when its `length` (UTF-16 code units) is below six |
| Signup.ConfirmError | frontend/src/pages/Signup.jsx:79-83 | The confirmation is reported exactly when empty or different from the password |
| Signup.ValidateStep1 | frontend/src/pages/Signup.jsx:54-84 | Each of the four step-1 keys is set exactly when its check fails, and no other key is set |
| Signup.ValidateStep1Messages | frontend/src/pages/Signup.jsx:57-83 | Each field's message is decided by the first of its checks that fails |
| Signup.Step1Valid | frontend/src/pages/Signup.jsx:85-86 | Step 1 passes exactly when the name has a `length` of at least 4 UTF-16 code units, the address has the loose shape, the password a `length` of at least 6 and the confirmation repeats it |
| Signup.ValidateStep2 | frontend/src/pages/Signup.jsx:89-101 | Each restaurant key is set exactly when that field is empty |
| Signup.Step2Valid | frontend/src/pages/Signup.jsx:102-103 | Step 2 passes exactly when both restaurant fields are filled |
| Signup.NextStep | frontend/src/pages/Signup.jsx:106-114 | From step 1 the errors are replaced by step-1 validation; other steps keep them; the values are never touched |
| Signup.PrevStep | frontend/src/pages/Signup.jsx:116-118 | Going back changes nothing but the step |
| Signup.StepMoves | frontend/src/pages/Signup.jsx:106-118 | Steps stay within 1..2; from step 1 the form reaches step 2 exactly when step 1 is valid; going back always lands on step 1 |
| Signup.InitialInRange | frontend/src/pages/Signup.jsx:9-22 | The form opens on step 1 |
| Signup.HandleInput | frontend/src/pages/Signup.jsx:24-38 | A field edit leaves the step and the signing-up flag alone |
| Signup.SetRestaurantType | frontend/src/pages/Signup.jsx:40-52 | The type takes the chosen value and its error stops showing; every other value and error is kept |
| Signup.SetRestaurantTypeIsEdit | frontend/src/pages/Signup.jsx:24-52 | Picking a type is the same edit as typing into a field named `restaurantType` |
| Signup.Submit | frontend/src/pages/Signup.jsx:120-132 | Submitting replaces the errors with step-2 validation; sign-up starts when step 2 passes, and nothing starts otherwise |
| Menu.With | frontend/src/pages/CreateMenu.jsx:157 | Spreading `[field]: value` sets that field and keeps the id and every other field |
| Menu.MaxId | frontend/src/pages/CreateMenu.jsx:140 | `Math.max` over the ids is an upper bound of them and is attained |
| Menu.NewId | frontend/src/pages/CreateMenu.jsx:140 | The new id exceeds every id in the list; it is 1 for an empty list, and otherwise one more than an existing id |
| Menu.AddItem | frontend/src/pages/CreateMenu.jsx:139-149 | Adding appends one blank row in `Main Course` with an id no other row has, and leaves the earlier rows as they were |
| Menu.AddKeepsUnique | frontend/src/pages/CreateMenu.jsx:139-149 | Adding a row keeps the ids distinct |
| Menu.Remove | frontend/src/pages/CreateMenu.jsx:151-153 | A row survives removal exactly when its id differs from the removed one |
| Menu.RemoveCutsOut | frontend/src/pages/CreateMenu.jsx:151-153 | With distinct ids, removing a row's id cuts out exactly that row |
| Menu.RemoveAbsent | frontend/src/pages/CreateMenu.jsx:151-153 | Removing an id no row carries changes nothing |
| Menu.RemoveKeepsUnique | frontend/src/pages/CreateMenu.jsx:151-153 | Removing a row keeps the ids of the list distinct |
| Menu.Update | frontend/src/pages/CreateMenu.jsx:155-159 | Editing sets the field on the rows with the given id and changes nothing else; length, ids and order are kept |
| Menu.UpdateKeepsUnique | frontend/src/pages/CreateMenu.jsx:155-159 | Editing keeps the ids distinct exactly when they were, and repeating an edit changes nothing |
| Menu.RemoveAfterUpdate | frontend/src/pages/CreateMenu.jsx:151-159 | Editing a row and then removing it gives the same list as removing it at once |
| Menu.Filtered | frontend/src/pages/CreateMenu.jsx:169-171 | Under `All` every row is shown; otherwise a row is shown exactly when its category is the selected one, and the shown rows are the matching rows at their ascending positions, in list order and each once |
| Menu.Bump | frontend/src/pages/CreateMenu.jsx:115 | Counting a row raises its category's count by one and no other; the key order is kept and a new key is appended with count 1 |
| Menu.BumpKeys | frontend/src/pages/CreateMenu.jsx:115 | Counting a row adds no key but its category |
| Menu.BumpDistinct | frontend/src/pages/CreateMenu.jsx:115 | Counting a row keeps the keys distinct |
| Menu.TallyShape | frontend/src/pages/CreateMenu.jsx:114-117 | The distribution has distinct keys and positive counts, and the counts add up to the number of rows |
| Menu.TallyCount | frontend/src/pages/CreateMenu.jsx:114-117 | The count under each category is the number of rows in that category |
| Menu.TallyKeys | frontend/src/pages/CreateMenu.jsx:114-117 | A category is a key of the distribution exactly when some row has it |
| Menu.UpdateStats | frontend/src/pages/CreateMenu.jsx:108-117 | `totalItems` is the number of rows and the sum of the distribution, whose keys are distinct with positive counts, each equal to its category's number of rows |
| Menu.FilteredMatchesDistribution | frontend/src/pages/CreateMenu.jsx:114-117 | Selecting a category shows as many rows as the distribution counts for it |
| Menu.InitialList | frontend/src/pages/CreateMenu.jsx:74-76 | The editor opens with one row, id 1, in `Main Course`; its statistics are one item, all in `Main Course` |

## Left out

- The browser session: launching Puppeteer, request interception mechanics,
  `request.continue()`, the 60-second navigation timeout and
  `networkidle2`. These are I/O; `browse` stands for their result.
- The HTTPS replay: headers, the User-Agent override, chunked reading and
  `JSON.parse`. These are I/O; `fetch` stands for their result and maps a
  transport or parse error to a failure.
- `browser.close()`, which the code skips when navigation throws: resource
  cleanup is not modelled.
- `new URL(...)` throwing on an unparsable captured URL: `SplitUrl` accepts
  every string, since the captured URL came from a real browser request.
- Scheme, host and path normalisation by the URL parser: `SplitUrl` keeps
  everything before the query as one string.
- Percent-encoding and the `+`-for-space rule of form-urlencoded queries:
  names and values are the raw text between separators.
- SearchParams.ReplayUrlQuery: requires the override values to avoid `&` and
  `#`, because the real serializer percent-encodes them and the model does
  not encode.
- Query parameters given more than once (Express turns them into arrays):
  `Query` holds one optional string per parameter.
- `item` is interpolated into the search-page URL unencoded; the model
  passes the same concatenation to `browse`.
- Floating-point numbers in the JSON reply. JSON numbers are integers and
  prices are read in minor units. `avgPrice` is an exact `real`, not an IEEE
  double.
- Rating.RatingKey: `parseFloat` is read at tenths resolution, so ratings
  that differ only in the hundredths compare equal in the sort. Exponents,
  `Infinity` and hexadecimal-looking input are not modelled.
- Cards.Normalize: a truthy `info.price` that is not a number (a string, say)
  is kept by the source as is; the model reads it as 0.
- Strings are sequences of Unicode scalar values, so a lone surrogate cannot
  occur. Where the source counts, `Base.Utf16Length` gives JavaScript's
  UTF-16 count: the `.{8,}` of `strongRegex` and the `length` checks of the
  sign-up form.
- The error body's `name`, `httpCode` and `isOperational` fields: the model
  keeps the status and the description only.
- For an error that is not an operational `BaseError` (every error the
  scraper throws), the error middleware of `src/index.js` first calls
  `next(err)`, handing the error to the framework's default handler, and
  then still sends its own 500. The default handler's response and the
  clash of the two replies are not modelled; the model gives the error
  handler's reply.
- `emailRegex` nests a `+` inside a `*` (`([A-Z0-9_+-]+\.?)*`), so a
  backtracking matcher can take time exponential in the local part's
  length on a rejected address. The model is a predicate and says nothing
  about matching time.
- Analysis.CalculateAnalytics: returns `Err` on an empty card list, where the
  source reads `undefined.restaurantName`; the handler never calls it with
  no cards.
- The login and sign-up network calls, toasts, navigation, the redirect of
  a logged-in user, and the sign-up `setTimeout` that clears the
  signing-up flag after 1.5 seconds. These are I/O and timers.
- Password visibility toggles: pure display state.
- The menu builder's `averagePrice`, `totalRevenue`, the random `faker`
  metrics and price history, `handleGenerateMenu` and the charts: floating
  point, randomness and display.
- Menu.Update: edits only the five text fields the editor wires up, not
  `id` or arbitrary keys.
- `Math.max(...ids)` failing on very long lists (the argument-count limit
  of the spread).
- The iteration order of integer-like object keys: the distribution is an
  insertion-ordered list of category/count entries.
- Menu.Bump: the tally starts from `{}`, so a category named after a
  property every object inherits (`toString`, `constructor`, `valueOf`,
  `hasOwnProperty`, `__proto__` and the rest) first reads that inherited
  value. Its count then becomes a string such as
  `"function toString() { [native code] }1"`; for `__proto__` the assignment
  replaces the prototype instead. The model counts every name from zero. The
  editor's category select offers six fixed names, none of them inherited.
- Menu.TallyCount: for the same inherited property names the source's count
  is not a number; the model's count is the number of rows.

# chronicle-ai: the data logic under the pages, in Dafny

chronicle-ai is a Next.js news site. Most of it is presentation. Under the
pages sit a few small pure transformations and state transitions over
in-memory records. This project models them as immutable datatypes and pure
functions, and proves what the pages promise about them:

- **The user dashboard's article feed.** It takes the fixed demo list, a
  category ("All" filters nothing), a text query and a sort option. It keeps
  the articles in the category, then those whose lower-cased title or excerpt
  contains the lower-cased query, then sorts stably by views, likes or date,
  descending.
- **The home page search.** A query that trims to nothing shows every demo
  article. Any other query filters the demo list, using the untrimmed query.
- **The admin dashboard.** Delete by id after a confirmation, prepend a newly
  created article, and four statistics: published count, draft count, total
  views, total likes. The page and the component carry identical copies. In the
  component copy, delete and the four statistics are restated as loops over
  the rows and create is restated directly; each is proved equal to the page
  function on every input.
- **User management.** A case-insensitive filter on email or role, delete by
  id, a disabled delete button on "Admin" rows, and a page that renders only
  for an admin session.
- **The auth context.** `login`, `signup` and `logout` as transitions on
  `(user, isLoading)`, with literal-credential rules and rejections carrying
  the source's messages.
- **The sign-up page's submit.** It clears the error, checks that the
  passwords match, then checks the length, then calls `signup` and redirects.
- **The admin article form.** Field edits, and a submit that requires title,
  excerpt and content, hands the data on and resets the form to its defaults.

Modules follow the source files:

| module | source |
|---|---|
| `UserDashboard` | app/user-dashboard/page.tsx |
| `HomePage` | app/page.tsx |
| `AdminDashboardPage` | app/admin-dashboard/page.tsx |
| `AdminDashboardComponent` | components/admin-dashboard.tsx |
| `UserManagement` | app/user-management/page.tsx |
| `Auth` | lib/auth-context.tsx |
| `SignupPage` | app/auth/signup/page.tsx |
| `ArticleForm` | components/admin-article-form.tsx |

Shared helpers:

- `Sequences` holds `Filter`, `Sum` and subsequences.
- `Text` holds `toLowerCase`, `includes` and `trim`.
- `Dates` holds the date key.
- `Articles` holds the feed record and its text match.
- `ArticleSort` holds the stable sort.
- `AdminArticles` holds the admin rows and their statistics.

Stability matters because `Array.prototype.sort` has been required to be
stable since the 2019 edition of ECMA-262. The model sorts by insertion.
`ArticleSort.StableSortIsUnique` shows that every stable descending sort of
a list gives the same result, so the engine's algorithm and the model's
agree.

Unlike the home page, which calls `trim()`, the user dashboard only tests
whether the query is non-empty (app/user-dashboard/page.tsx:89), so a query
of spaces searches for spaces. `UserDashboard.SpacesQueryIsAFilter` states
this.

The admin dashboard's handlers and statistics appear twice, in
app/admin-dashboard/page.tsx:46-69 and components/admin-dashboard.tsx:46-69,
and the two ranges are identical text. `AdminDashboardPage` models them as
functions. `AdminDashboardComponent` restates delete and the four statistics
independently as loops over the rows, and create directly; each is proved
equal to the page function on every input.

## Model

| member | source | states |
|---|---|---|
| `Sequences.Filter` | app/user-dashboard/page.tsx:86 | `Array.prototype.filter`: the result is an order-preserving subsequence of the input; it holds each passing element as often as the input does, and no other |
| `Sequences.FilterAppend` | app/admin-dashboard/page.tsx:48 | filtering a concatenation filters each part |
| `Sequences.FilterCountBounds` | app/admin-dashboard/page.tsx:66-67 | a filter keeps nothing exactly when no element passes, and keeps the whole list exactly when every element passes |
| `Sequences.SumBounds` | app/admin-dashboard/page.tsx:68-69 | a sum of non-negative terms is non-negative, at least each term, and zero exactly when every term is |
| `Sequences.ComplementaryFiltersLength` | app/admin-dashboard/page.tsx:66-67 | the lengths of two complementary filters add up to the list's length |
| `Sequences.ComplementaryFiltersSum` | app/admin-dashboard/page.tsx:68-69 | the sums of two complementary filters add up to the list's sum |
| `Text.Includes` | app/user-dashboard/page.tsx:92-93 | `includes` is true exactly when the part occurs at some index of the text; the empty part occurs everywhere |
| `Text.Lower` | app/user-dashboard/page.tsx:92-93 | `toLowerCase` keeps the length, gives a string equal to its input ignoring case, and leaves no upper-case ASCII letter |
| `Text.LowerIdempotent` | app/user-dashboard/page.tsx:92-93 | lower-casing an already lower-cased string changes nothing |
| `Text.LowerIgnoresCase` | app/user-management/page.tsx:33-34 | strings that differ only in letter case lower-case to the same string, so every case-insensitive match rests on it |
| `Text.TrimStart` | app/page.tsx:61 | removes exactly the leading ECMA-262 white space: a suffix of the input, all white space before it, and not starting with white space |
| `Text.TrimEnd` | app/page.tsx:61 | removes exactly the trailing white space: a prefix of the input, all white space after it, and not ending with white space |
| `Text.Trim` | app/page.tsx:61 | `trim()` returns a piece of the query with only white space before and after it, and the piece neither starts nor ends with white space |
| `Text.TrimEmptyIffBlank` | app/page.tsx:61 | `query.trim()` is empty exactly when the query is all white space |
| `Text.CaseKeepsBlankness` | app/page.tsx:61-64 | queries that differ only in letter case are both blank or both not |
| `Dates.DigitsValue` | app/user-dashboard/page.tsx:104 | the number a digit string denotes is below 10 to the power of its length |
| `Dates.LexLessAt` | app/user-dashboard/page.tsx:104 | strings that agree up to a position and differ there compare as the characters at that position |
| `Dates.DigitsOrderIsLexicographic` | app/user-dashboard/page.tsx:104 | on digit strings of equal length, numeric order is string order |
| `Dates.DateOrderIsLexicographic` | app/user-dashboard/page.tsx:104 | for `YYYY-MM-DD` dates, comparing timestamps is comparing the strings lexicographically |
| `Dates.Pow10Add` | app/user-dashboard/page.tsx:104 | arithmetic helper of `Dates.DateKeyByFields`, modelling nothing at this line by itself: ten to the power of a sum is the product of the powers |
| `Dates.DigitsValueAppend` | app/user-dashboard/page.tsx:104 | arithmetic helper of `Dates.DateKeyByFields`, modelling nothing at this line by itself: the value of two digit strings run together is the first's value shifted by the second's length, plus the second's value |
| `Dates.DateKeyFields` | app/user-dashboard/page.tsx:104 | the eight digits of a date denote year times 10000 plus month times 100 plus day |
| `Dates.DateKeyByFields` | app/user-dashboard/page.tsx:104 | a `YYYY-MM-DD` date's key is year times 10000 plus month times 100 plus day, read from its fields; every other string has key 0 |
| `Articles.MatchesQueryMeaning` | app/user-dashboard/page.tsx:90-94 | an article matches exactly when the lower-cased query occurs in its lower-cased title or excerpt |
| `Articles.MatchIgnoresCase` | app/user-dashboard/page.tsx:92-93 | queries that differ only in letter case match the same articles |
| `Articles.EmptyQueryMatches` | app/page.tsx:64-65 | the empty query matches every article |
| `ArticleSort.InsertKeepsSorted` | app/user-dashboard/page.tsx:97-105 | inserting into a descending list keeps it descending |
| `ArticleSort.InsertKeepsTies` | app/user-dashboard/page.tsx:97-105 | an inserted article goes in front of the articles that share its key, and the order among ties is otherwise kept |
| `ArticleSort.Sort` | app/user-dashboard/page.tsx:97-105 | the sort returns a permutation of its input, in descending key order, with the articles of each key in their input order |
| `ArticleSort.SortedCons` | app/user-dashboard/page.tsx:97-105 | a descending list stays descending behind a head whose key is at least every key in it |
| `ArticleSort.WithKeyCons` | app/user-dashboard/page.tsx:97-105 | the ties of a list with a known head are the head's own tie followed by the tail's |
| `ArticleSort.TieBehindHead` | app/user-dashboard/page.tsx:97-105 | an article placed behind a head with a larger key keeps the head's tie in front of its own |
| `ArticleSort.InsertHead` | app/user-dashboard/page.tsx:97-105 | inserting a list's head into a stable sort of its tail gives a stable sort of the list |
| `ArticleSort.WithKeyAppend` | app/user-dashboard/page.tsx:97-105 | the articles with a given key in a concatenation are those of the first part followed by those of the second |
| `ArticleSort.SwapDistinctKeys` | app/user-dashboard/page.tsx:97-105 | two adjacent articles with different keys can trade places without changing the order within any group of ties |
| `ArticleSort.StableSortIsUnique` | app/user-dashboard/page.tsx:97-105 | two descending lists with the same articles per key in the same order are equal |
| `ArticleSort.SortedTail` | app/user-dashboard/page.tsx:97-105 | the tail of a descending list is descending |
| `ArticleSort.SameTiesInTails` | app/user-dashboard/page.tsx:97-105 | two lists with the same head and the same ties per key have tails with the same ties per key |
| `ArticleSort.WithKeyOfThree` | app/user-dashboard/page.tsx:97-105 | the ties of a three-article list are picked out article by article |
| `ArticleSort.ThreeDistinctKeysTies` | app/user-dashboard/page.tsx:97-105 | three articles with pairwise distinct keys have the same ties per key in all six arrangements |
| `ArticleSort.AnyStableSortAgrees` | app/user-dashboard/page.tsx:97-105 | any stable descending sort of a list, the engine's included, equals the model's sort |
| `ArticleSort.SortOfSorted` | app/user-dashboard/page.tsx:97-105 | sorting a list that is already descending leaves it unchanged |
| `UserDashboard.Selection` | app/user-dashboard/page.tsx:83-95 | the two filters keep, in order, exactly the articles in the category ("All" keeps all) that match a non-empty query |
| `UserDashboard.OrderFor` | app/user-dashboard/page.tsx:97-105 | "Trending" and "Most Viewed", and only they, sort by views; "Most Liked", and only it, sorts by likes; "Latest" and every other string sort by date |
| `UserDashboard.FilteredArticles` | app/user-dashboard/page.tsx:82-108 | the feed is a permutation of the selected articles: nothing invented or duplicated, every selected article present, each in the category and matching the query, descending by the chosen key, ties in their filtered order |
| `UserDashboard.SelectionMembers` | app/user-dashboard/page.tsx:83-95 | any rearrangement of the selection holds exactly the selected articles of the input, each as often as the input does |
| `UserDashboard.SelectionKeepsAll` | app/user-dashboard/page.tsx:83-95 | selecting again from a list of selected articles returns the list unchanged |
| `UserDashboard.NoFiltersKeepEverything` | app/user-dashboard/page.tsx:85-89 | with "All" and an empty query the feed is a permutation of the whole list |
| `UserDashboard.MostLikedOrdersByLikes` | app/user-dashboard/page.tsx:99-100 | "Most Liked" gives non-increasing likes |
| `UserDashboard.TrendingIsMostViewed` | app/user-dashboard/page.tsx:97-102 | "Trending" and "Most Viewed" give the same feed, ordered by non-increasing views |
| `UserDashboard.LatestIsNewestFirst` | app/user-dashboard/page.tsx:103-104 | "Latest", and any option not in the list, give a feed in which no later date is lexicographically greater than an earlier one |
| `UserDashboard.FeedIsTheStableSort` | app/user-dashboard/page.tsx:97-105 | every sorted and stable rearrangement of the selection is the feed |
| `UserDashboard.RequeryIsIdempotent` | app/user-dashboard/page.tsx:82-108 | applying the same category, query and sort option to the feed again returns the feed unchanged |
| `UserDashboard.SpacesQueryIsAFilter` | app/user-dashboard/page.tsx:89 | a query of three spaces is a real filter that drops an article without spaces, while the empty query keeps it |
| `UserDashboard.NextDayHasLargerKey` | app/user-dashboard/page.tsx:104 | of two dates differing only in the last digit of the day, the later one sorts first |
| `UserDashboard.LatestOrdersThree` | app/user-dashboard/page.tsx:103-104 | three articles with distinct date keys come out newest, middle, oldest under "Latest", whichever of the six orders they arrive in |
| `UserDashboard.LatestExample` | app/user-dashboard/page.tsx:103-104 | articles dated 2025-11-24, 2025-11-22, 2025-11-23 are listed 24, 23, 22 |
| `UserDashboard.DemoArticlesHaveButtons` | app/user-dashboard/page.tsx:10-75 | "All" is the first category button, and every demo article's category has a button of its own |
| `HomePage.Search` | app/page.tsx:61-70 | a blank query gives the list unchanged; otherwise an order-preserving subsequence holding exactly the articles the untrimmed query matches |
| `HomePage.HandleSearch` | app/page.tsx:60-71 | the query is kept; the list shown always comes from the demo list, is the whole demo list for a blank query, and otherwise holds exactly the matching demo articles |
| `HomePage.SearchForgetsEarlierResults` | app/page.tsx:62 | the list after a search depends only on the query, not on what was shown before |
| `HomePage.SearchTwiceIsSearchOnce` | app/page.tsx:60-71 | searching twice is searching once |
| `HomePage.SearchIgnoresCase` | app/page.tsx:61-65 | queries that differ only in letter case give the same list |
| `HomePage.UntrimmedQueryIsMatched` | app/page.tsx:61-65 | " ab" finds nothing in a title "ab" that "ab" finds: the match uses the untrimmed query |
| `HomePage.InitialHomeIsSettled` | app/page.tsx:57-58 | the page opens with an empty query showing every demo article, and searching that state changes nothing |
| `AdminArticles.StatusCountsAddUp` | app/admin-dashboard/page.tsx:66-67 | published count plus draft count is the number of articles |
| `AdminArticles.CountBounds` | app/admin-dashboard/page.tsx:66-67 | each count is at most the number of rows, zero exactly when no row has that status, and the number of rows exactly when every row has it |
| `AdminArticles.TotalBounds` | app/admin-dashboard/page.tsx:68-69 | each total is non-negative, at least any one row's figure, and zero exactly when every row's figure is zero |
| `AdminArticles.StatsOfAppend` | app/admin-dashboard/page.tsx:66-69 | one more row adds one to its status's count, and its views and likes to the totals |
| `AdminDashboardPage.HandleDelete` | app/admin-dashboard/page.tsx:46-50 | a declined confirmation changes nothing; a confirmed delete keeps, in order, exactly the rows whose id differs |
| `AdminDashboardPage.HandleCreateArticle` | app/admin-dashboard/page.tsx:52-64 | the new row comes first, published, with no views or likes, the form's title and category, the given id and date; the old rows follow unchanged; the dialog closes |
| `AdminDashboardPage.NewArticle` | app/admin-dashboard/page.tsx:53-61 | the created row is published, with no views or likes, the form's title and category, and the given id and date |
| `AdminDashboardPage.DeleteAbsentIdIsNoOp` | app/admin-dashboard/page.tsx:46-50 | deleting an id no row has leaves the table unchanged |
| `AdminDashboardPage.DeleteUndoesCreate` | app/admin-dashboard/page.tsx:46-62 | deleting a fresh id right after creating with it restores the table |
| `AdminDashboardPage.CreateUpdatesStats` | app/admin-dashboard/page.tsx:52-69 | creating raises the published count by one and leaves the draft count and both totals unchanged |
| `AdminDashboardPage.DeleteUpdatesStats` | app/admin-dashboard/page.tsx:46-69 | a delete lowers the total views, total likes and row count by exactly those of the removed rows |
| `AdminDashboardPage.SubmittedFormBecomesFirstRow` | components/admin-article-form.tsx:31-33 | a complete form, once submitted, becomes the first row with its title and category |
| `AdminDashboardPage.InitialStats` | app/admin-dashboard/page.tsx:11-43 | the page opens on two published articles and one draft, 24320 views and 5300 likes, with the dialog closed |
| `AdminDashboardComponent.HandleDelete` | components/admin-dashboard.tsx:46-50 | the component's delete gives the page's result for every input |
| `AdminDashboardComponent.HandleCreateArticle` | components/admin-dashboard.tsx:52-64 | the component's create gives the page's result for every input |
| `AdminDashboardComponent.Stats` | components/admin-dashboard.tsx:66-69 | the component's four statistics equal the page's, and published plus drafts is the row count |
| `UserManagement.FilteredUsers` | app/user-management/page.tsx:31-35 | the order-preserving subsequence holding exactly the users whose lower-cased email or role contains the lower-cased query |
| `UserManagement.HandleDeleteUser` | app/user-management/page.tsx:37-41 | a declined confirmation changes nothing; a confirmed delete keeps, in order, exactly the users whose id differs |
| `UserManagement.ClickDelete` | app/user-management/page.tsx:126-128 | a click on a disabled ("Admin") button or a declined confirmation changes nothing; the result is always an order-preserving subsequence of the users; an enabled, confirmed click removes every user with that row's id and keeps every other user as often as before |
| `UserManagement.DeleteEnabled` | app/user-management/page.tsx:128 | a row's delete button is disabled exactly when its role text is "Admin"; the test is case-sensitive, so "admin" keeps its button |
| `UserManagement.RenderedRows` | app/user-management/page.tsx:43 | the table is rendered exactly when the session user has the admin role, and then lists, in their order in the table, exactly the matching users, each as often as the table holds it |
| `UserManagement.EmptyQueryListsAll` | app/user-management/page.tsx:31-35 | the empty query lists every user in order |
| `UserManagement.QueryIgnoresCase` | app/user-management/page.tsx:33-34 | queries that differ only in letter case list the same users |
| `UserManagement.UpperCaseQueryFindsAdmins` | app/user-management/page.tsx:34 | "ADMIN" matches a user whose role is "Admin" |
| `UserManagement.DeletedUserNeverListed` | app/user-management/page.tsx:31-39 | after a confirmed delete no listed user has the deleted id, whatever the query |
| `UserManagement.AdminsSurviveDeletes` | app/user-management/page.tsx:126-128 | with unique ids, no click on a delete button removes an "Admin" user |
| `UserManagement.DemoAdminSurvives` | app/user-management/page.tsx:12-23 | in the demo table the admin row survives a click on any row's delete button |
| `Auth.Login` | lib/auth-context.tsx:28-41 | loading ends; the exact admin credentials give the admin role; other non-empty pairs, the admin email with a wrong password included, give the user role; an empty email or password rejects with "Invalid credentials" and keeps the user |
| `Auth.Signup` | lib/auth-context.tsx:43-54 | loading ends; it succeeds exactly when the email is non-empty and the password has at least 6 characters, always with the user role; failure rejects with "Invalid email or password" and keeps the user |
| `Auth.Logout` | lib/auth-context.tsx:56-58 | signs out from any state |
| `Auth.LogoutIdempotent` | lib/auth-context.tsx:56-58 | logging out twice is logging out once |
| `Auth.RunKeepsConsistent` | lib/auth-context.tsx:28-58 | after any sequence of calls the session is not loading, a signed-in user has an email, and only the admin email holds the admin role |
| `Auth.AdminOnlyByAdminLogin` | lib/auth-context.tsx:28-58 | a session that was not admin becomes admin only through a login with the exact admin credentials |
| `Auth.StartIsConsistent` | lib/auth-context.tsx:25-58 | the provider starts signed out and idle, and no sequence of calls from there breaks consistency |
| `SignupPage.HandleSubmit` | app/auth/signup/page.tsx:23-43 | a mismatch reports "Passwords do not match" and calls nothing; then a short password reports the length message and calls nothing; otherwise `signup` is called; the page redirects exactly when no error remains |
| `SignupPage.PreviousErrorIsForgotten` | app/auth/signup/page.tsx:25 | the error a submit shows does not depend on the error shown before |
| `SignupPage.MismatchReportedBeforeLength` | app/auth/signup/page.tsx:27-35 | every submit whose passwords differ and whose password is shorter than 6 characters reports "Passwords do not match", not the length message, and calls no `signup` |
| `SignupPage.PageChecksCoverPasswordRule` | app/auth/signup/page.tsx:32-41 | past the page's checks `signup` rejects only for an empty email, and its message is the error shown |
| `ArticleForm.Edit` | components/admin-article-form.tsx:74-123 | an edit sets its field and leaves every other field as it was |
| `ArticleForm.HandleSubmit` | components/admin-article-form.tsx:31-42 | `onSubmit` is called exactly when title, excerpt and content are non-empty, with the data before the reset; the form is then reset to the defaults; otherwise nothing changes |
| `ArticleForm.NoDoubleSubmit` | components/admin-article-form.tsx:31-42 | a second submit straight after the first calls nothing and leaves the form alone |
| `ArticleForm.FilledFormSubmits` | components/admin-article-form.tsx:23-33 | filling title, excerpt and content on the initial form is enough to submit, with category "Technology" and image "/placeholder.svg" |

## Left out

- JSX rendering, framer-motion animation, CSS and layout are presentation with no logic to state.
- Every `router.push` is left out: the user-management guard's redirect, the dashboards redirect after sign-up and the other pages' guards. After a sign-up the model records only whether the page would redirect.
- The `confirm()` dialogs are not modelled as dialogs. The user's answer is the `confirmed` parameter.
- `Date.now()` and `new Date()` are not modelled. The new article's id and date are the `newId` and `today` parameters.
- The `(views/1000).toFixed(1)` figures, `toLocaleString` and `toLocaleDateString` are left out. They are floating-point and locale formatting with no logic to state.
- `Text.Lower`: `toLowerCase` is modelled for ASCII letters only, through `Text.LowerChar`. Every other character is kept as is; full Unicode case mapping is not modelled, so the contract speaks of upper-case ASCII letters only.
- `Dates.DateKey`: only strings of the exact `YYYY-MM-DD` shape are ordered as dates. Every other string gets key 0. JavaScript parses some such strings to real times (`2025-11`, or a date with a time) and others to Invalid Date, where the comparator returns NaN and the order is implementation-defined. The order lemmas require well-formed dates. Calendar validity (month 13, day 32) is not checked.
- Numbers are exact integers: JavaScript's double-precision limits on views and likes are not modelled.
- String length is counted in characters rather than UTF-16 code units. This affects only the 6-character password rule for astral-plane characters.
- The editing state (`editingId`) and the button that opens the create dialog hold no logic in the source and are not modelled.
- The source array is never mutated in the model, because Dafny sequences are immutable. The copy `[...result]` before sorting needs no statement.
- `async`/`await` in the auth functions is modelled as one sequential transition per call, because nothing inside them is awaited.
- The tRPC routers are not part of this model: they return constants or empty lists. `components/search-card.tsx` is not part of this model either.

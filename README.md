# Asiste Health site: verified model of its blog, login, intake and admin pages

This project models the behaviour of the Next.js site of a health-insurance
agency. The site has:

- a public blog API that lists published posts, filtered and paged;
- an admin blog API that lists every post for a signed-in admin and creates new ones;
- an admin login API that checks credentials, sets a session cookie, reads the session back and logs out;
- public intake endpoints for customer reviews and contact requests, which store the request and may send a notification e-mail;
- the admin pages: contacts (search, selection, deletion, CSV export), posts (status filter, search, paging, publish and feature toggles) and the new-post form (slug derived from the title, form schema, submit body);
- the public blog page: categories, category filter, featured and regular sections, card images.

The database tables are sequences of rows (`Tables`).

Each route handler is a function from the request and the table contents to a
response datatype, with one constructor per status code the handler can return.
The handlers that write rows are methods of classes whose fields are those rows:
`AdminBlogRoute.BlogStore`, `ReviewsRoute.ReviewTable` and `ContactRoute.ContactTable`.

The admin pages keep React state, so they are classes whose methods are the event handlers:
`FormsPage.ContactsPage` and `AdminBlogPage.PostsPage`. The public blog page holds
plain values (`BlogPage.PageState`).

Library behaviour appears in the model as follows:

- The zod schemas are lists of issues (`Validation`). The e-mail and URL formats are parameters (`Formats`).
- bcrypt and the JSON web token are the `Crypto` parameter.
- `parseInt` and `URLSearchParams.get` are in `UrlQuery`.
- The SQL `WHERE` clause with its placeholders is in `WhereClause`.
- `ORDER BY … DESC` with `LIMIT`/`OFFSET` is in `Ordering`.
- JavaScript's `toLowerCase`, `trim`, `\s` and UTF-16 length are in `Common`.

## Model

| member | source | states |
|---|---|---|
| Tables.FirstWanted | src/app/api/admin/auth/route.ts:18-23 | the index found is the first row satisfying the test; every earlier row fails it |
| Tables.FindAdmin | src/app/api/admin/auth/route.ts:18-23 | a found admin is a row of the table that passes the test; nothing is found exactly when no row passes |
| Tables.FindActive | src/app/api/admin/auth/route.ts:18-23 | `WHERE <column> = ? AND active = 1`, by username at login and by id in the session checks: finds an active admin whose key column holds the key, or nothing exactly when the table has no such admin |
| Tables.FindById | src/app/api/admin/blog/route.ts:82-90 | the author join: finds the row with that id, or nothing exactly when no row has it |
| Tables.FindByIdUnique | src/app/api/admin/blog/route.ts:82-90 | when ids are unique, looking up a row's id finds that very row |
| Tables.FirstWantedAgrees | src/app/api/admin/auth/route.ts:18-23 | two tables whose rows agree row by row on the test give the same first match |
| UrlQuery.Get | src/app/api/admin/blog/route.ts:56-60 | `searchParams.get`: absent exactly when no parameter has the name, otherwise the value of the first parameter with that name |
| UrlQuery.GetOr | src/app/api/blog/route.ts:8-9 | `get(name) \|\| fallback`: the parameter's value when it is a non-empty string, the fallback otherwise |
| UrlQuery.ParseInt | src/app/api/blog/route.ts:8-9 | `parseInt` without a radix: a string without any digit reads as NaN (the round trip with printing is ParseIntOfDecimal) |
| UrlQuery.Run | src/app/api/blog/route.ts:8-9 | the longest prefix of digits that parseInt reads, and the character after it is no digit |
| UrlQuery.Decimal | src/app/admin/blog/page.tsx:86-89 | `toString()` of a page number: non-empty, digits only, no leading zero |
| UrlQuery.DecimalValueOfDecimal | src/app/admin/blog/page.tsx:86-89 | reading the printed digits back gives the number |
| UrlQuery.ParseIntOfDecimal | src/app/api/admin/blog/route.ts:56-57 | parseInt of a printed natural number returns that number: printing and parsing are inverse |
| UrlQuery.SkipSpacesOfDigits | src/app/api/admin/blog/route.ts:56-57 | parseInt skips no character of a string that starts with a digit |
| UrlQuery.RunOfDigits | src/app/api/admin/blog/route.ts:56-57 | parseInt reads a string made only of digits to its end |
| Validation.RuleIssues | src/app/api/admin/blog/route.ts:6-19 | no issue exactly when the string passes every rule; at most one issue per rule, each at the field's path |
| Validation.TextIssues | src/app/api/admin/blog/route.ts:6-19 | no issue exactly when a string field is present and passes its rules, or is optional and absent |
| Validation.NumberIssues | src/app/api/reviews/route.ts:9 | no issue exactly when a number field is present and within its bounds, or is optional and absent |
| Validation.FlagIssues | src/app/api/admin/blog/route.ts:12-13 | an optional boolean field has an issue exactly when it is present but not a boolean |
| Validation.WithDefault | src/app/api/admin/blog/route.ts:12-13 | `.default(d)`: the default for an absent field, the given value otherwise |
| Validation.Optional | src/app/api/admin/blog/route.ts:15-17 | `.optional()`: a value exactly when the field was given, and then the given value |
| WhereClause.Bind | src/app/api/admin/blog/route.ts:65-79 | binding succeeds exactly when there are as many parameters as placeholders; one column test per condition, in order |
| WhereClause.BindPush | src/app/api/admin/blog/route.ts:65-79 | pushing a condition and its parameter extends the bound clause by exactly that column test |
| WhereClause.Select | src/app/api/admin/blog/route.ts:94-97 | the statement runs exactly when placeholders and parameters match in number |
| Notification.Notify | src/app/api/reviews/route.ts:29-33 | no mail is attempted exactly when the SMTP user or password is missing or is the placeholder address; a mail is sent exactly when the configuration is valid and delivery succeeds |
| Ordering.Insert | src/app/api/admin/blog/route.ts:89 | inserting into a sorted list adds exactly one row |
| Ordering.InsertMultiset | src/app/api/admin/blog/route.ts:89 | insertion adds the row and keeps every other row |
| Ordering.InsertBelow | src/app/api/admin/blog/route.ts:89 | insertion keeps every row below a bound that the new row is also below |
| Ordering.InsertSorted | src/app/api/admin/blog/route.ts:89 | insertion keeps the list sorted in descending key order |
| Ordering.SortDesc | src/app/api/admin/blog/route.ts:89 | `ORDER BY … DESC`: the result is sorted in descending key order and is a permutation of the input |
| Ordering.SortDescKeeps | src/app/api/admin/blog/route.ts:89 | sorting keeps the number of rows, and every sorted row comes from the input |
| Ordering.Window | src/app/api/admin/blog/route.ts:90 | `LIMIT count OFFSET offset`: the rows from the offset on, at most count of them, none past the end |
| Ordering.CeilDiv | src/app/api/admin/blog/route.ts:118 | `Math.ceil(total / limit)`: the smallest page count whose pages hold every row; zero exactly when there are no rows |
| Ordering.RowOnItsPage | src/app/api/admin/blog/route.ts:118 | every row is on exactly one page, at a place within the page count |
| Ordering.PageAfterLastIsEmpty | src/app/api/admin/blog/route.ts:118 | a page past the page count holds no rows |
| Ordering.Paginate | src/app/api/admin/blog/route.ts:111-120 | fails exactly for a NaN page or limit, a negative limit or a negative offset; otherwise the listed rows are the rows from the page's offset on, at most a limit of them, the total counts every row, and totalPages is the ceiling of total over limit (null for a zero limit) |
| Ordering.PageRows | src/app/api/admin/blog/route.ts:90 | a page holds at most `limit` rows, each the row at its position from the page's offset |
| Ordering.PageLength | src/app/api/admin/blog/route.ts:90 | a page below the page count is full; the last page holds the remainder; later pages are empty |
| Ordering.PaginateKeepsOrder | src/app/api/admin/blog/route.ts:89-90 | a page of sorted rows is sorted and holds only rows of the input |
| Ordering.PageRowsKeepOrder | src/app/api/admin/blog/route.ts:89-90 | the rows of a page of sorted rows stay sorted and come from the input |
| AdminAuthRoute.LoginIssues | src/app/api/admin/auth/route.ts:7-10 | the body is accepted exactly when the username has at least 3 and the password at least 6 UTF-16 code units |
| AdminAuthRoute.Login | src/app/api/admin/auth/route.ts:12-88 | 400 exactly when the body is invalid; 401 exactly when no active admin has the username or the password fails the compare; on success the password matched an active admin with that username, the response holds that admin without the hash, and the cookie is the signed claims, httpOnly, sameSite lax, one day long |
| AdminAuthRoute.WithHashes | src/app/api/admin/auth/route.ts:33-39 | replaces each admin's stored hash and nothing else |
| AdminAuthRoute.LoginSeesHashesOnlyThroughCompare | src/app/api/admin/auth/route.ts:33-39 | the stored hash never reaches the response: two tables whose hashes give the same compare results give the same answer |
| AdminAuthRoute.CheckSession | src/app/api/admin/auth/route.ts:113-152 | 401 without a token or with a token that fails verification; 200 exactly when a verified token names an active admin, whose profile it returns |
| AdminAuthRoute.LoginThenSession | src/app/api/admin/auth/route.ts:40-70 | the cookie a successful login sets opens a session for the same admin profile, provided signed tokens are non-empty and verify back to their claims and admin ids are unique |
| AdminAuthRoute.Logout | src/app/api/admin/auth/route.ts:92-110 | answers 200 and deletes the session cookie |
| AdminBlogRoute.VerifyAuth | src/app/api/admin/blog/route.ts:22-43 | a session exactly when the session check accepts the cookie, and then it names an active admin |
| AdminBlogRoute.AuthorOf | src/app/api/admin/blog/route.ts:102-109 | no author exactly when no admin has the post's authorId; otherwise the username and name of that admin |
| AdminBlogRoute.WithAuthors | src/app/api/admin/blog/route.ts:102-109 | each listed row is the post with its author, in the same order |
| AdminBlogRoute.AdminWants | src/app/api/admin/blog/route.ts:66-75 | the admin filters; with neither a `published` nor a non-empty `category` parameter every row is wanted |
| AdminBlogRoute.BuildAdminWhere | src/app/api/admin/blog/route.ts:65-79 | one parameter per placeholder; no clause exactly when neither filter is set; a row satisfies the bound clause exactly when it has the requested published flag and category |
| AdminBlogRoute.AdminOrdered | src/app/api/admin/blog/route.ts:82-92 | the filtered rows, newest first: sorted by creation date descending, a permutation of exactly the rows the filters select |
| AdminBlogRoute.AdminListing | src/app/api/admin/blog/route.ts:46-128 | 401 exactly when there is no session; 500 exactly for a NaN page or limit, a negative limit or a negative offset; otherwise the total counts the filtered rows and the page holds at most `limit` rows |
| AdminBlogRoute.AdminListingRows | src/app/api/admin/blog/route.ts:82-99 | every listed post is a row the filters select, newest first |
| AdminBlogRoute.ListPosts | src/app/api/admin/blog/route.ts:46-128 | the handler run step by step answers what the listing specification says |
| AdminBlogRoute.PostIssues | src/app/api/admin/blog/route.ts:6-19 | every issue the schema reports is at one of its members |
| AdminBlogRoute.PostIssuesAgree | src/app/api/admin/blog/route.ts:6-19 | the schema reports no issue exactly when the body is acceptable field by field |
| AdminBlogRoute.Parse | src/app/api/admin/blog/route.ts:142-143 | the parsed post keeps title, slug, excerpt, content and category as given; the optional strings are kept when given and absent otherwise; published and featured are false unless given true; readTime is the given one or 5 |
| AdminBlogRoute.SlugTaken | src/app/api/admin/blog/route.ts:146-156 | the slug is taken exactly when some stored post has it |
| AdminBlogRoute.NewRow | src/app/api/admin/blog/route.ts:159-178 | the inserted row has the next id, the session admin as author, the post's title, slug, excerpt, content, category, flags and read time, empty optional strings stored as null, no views, and both timestamps set to now |
| AdminBlogRoute.Admit | src/app/api/admin/blog/route.ts:132-220 | 401 without a session; 400 with the schema's issues for an unacceptable body; 400 for a slug already stored; accepted exactly when signed in, acceptable and the slug is new |
| AdminBlogRoute.InsertKeepsInvariant | src/app/api/admin/blog/route.ts:159-178 | inserting a row with the next id and a new slug keeps ids and slugs unique and below the next id |
| AdminBlogRoute.AdmittedKeepsInvariant | src/app/api/admin/blog/route.ts:146-178 | a post admitted by the checks has a session, and inserting it keeps ids and slugs unique |
| AdminBlogRoute.BlogStore.constructor | src/app/api/admin/blog/route.ts:159-178 | an empty table whose next id is 1 |
| AdminBlogRoute.BlogStore.Insert | src/app/api/admin/blog/route.ts:159-178 | the INSERT of a post whose slug is free appends exactly the new row under the next id, advances the id and keeps the table's invariant |
| AdminBlogRoute.BlogStore.Create | src/app/api/admin/blog/route.ts:132-220 | a refused request changes nothing and answers the refusal; an admitted one appends exactly the new row, advances the id and answers 201 with the row and its author; unique slugs are kept |
| AdminBlogRoute.SecondCreateRefused | src/app/api/admin/blog/route.ts:146-156 | posting the same slug twice is refused the second time |
| PublicBlogRoute.PublicWants | src/app/api/blog/route.ts:16-28 | the public filters; whatever the category and featured parameters, a wanted row is published |
| PublicBlogRoute.BuildPublicWhere | src/app/api/blog/route.ts:16-28 | the clause starts with the published test; one parameter per placeholder; a row satisfies it exactly when it is published and matches the category and featured filters |
| PublicBlogRoute.PublicView | src/app/api/blog/route.ts:31-36 | the public columns of a post with its author, or an unknown author exactly when no admin has its authorId |
| PublicBlogRoute.PublicViews | src/app/api/blog/route.ts:48-54 | each row's public view, in the same order |
| PublicBlogRoute.PublicOrdered | src/app/api/blog/route.ts:31-38 | the selected rows, featured first, then newest first; a permutation of exactly the published rows the filters select |
| PublicBlogRoute.PublishedListing | src/app/api/blog/route.ts:6-73 | 500 exactly for a NaN page or limit, a negative limit or a negative offset; otherwise the total counts the published rows the filters select, and the page holds at most `limit` of them |
| PublicBlogRoute.ListPublished | src/app/api/blog/route.ts:6-73 | the handler run step by step answers what the listing specification says |
| PublicBlogRoute.PublicListingOnlyPublished | src/app/api/blog/route.ts:16-28 | every listed post is the view of a published row that matches the category and featured filters |
| PublicBlogRoute.PublicListingOrder | src/app/api/blog/route.ts:35 | featured posts come before the others, and within each group newer posts come first |
| ReviewsRoute.ReviewIssuesAgree | src/app/api/reviews/route.ts:6-11 | the schema reports no issue exactly when the name, e-mail, rating and comment are acceptable |
| ReviewsRoute.ReviewIssues | src/app/api/reviews/route.ts:6-11 | every issue is at name, email, rating or comment, and a rating outside 1..5 is reported at `rating` |
| ReviewsRoute.ReviewTable.constructor | src/app/api/reviews/route.ts:21-24 | an empty table whose next id is 1 |
| ReviewsRoute.ReviewTable.Submit | src/app/api/reviews/route.ts:13-140 | a rejected body stores nothing and sends no mail; an accepted one stores exactly one review, already approved, answers 200 and notifies as the SMTP configuration allows |
| ReviewsRoute.ApprovedOrdered | src/app/api/reviews/route.ts:146 | only approved reviews, newest first, all of them |
| ReviewsRoute.ApprovedReviews | src/app/api/reviews/route.ts:143-152 | the public columns of every approved review and only of those, newest first |
| ContactRoute.ContactIssuesAgree | src/app/api/contact/route.ts:6-11 | the schema reports no issue exactly when the name, phone, e-mail and five-digit postal code are acceptable |
| ContactRoute.ContactIssues | src/app/api/contact/route.ts:6-11 | every issue is at name, phone, email or postalCode |
| ContactRoute.ContactTable.constructor | src/app/api/contact/route.ts:21-24 | an empty table whose next id is 1 |
| ContactRoute.ContactTable.Submit | src/app/api/contact/route.ts:13-136 | a rejected body stores nothing and sends no mail; an accepted one stores exactly one contact, answers 200 and notifies as the SMTP configuration allows |
| ContactRoute.Health | src/app/api/contact/route.ts:139-143 | the GET answers 200 with the fixed health message |
| NewPostPage.ReplaceRuns | src/app/admin/blog/new/page.tsx:77-78 | a run replacement keeps only the separator or characters from outside the class; it empties only the empty string |
| NewPostPage.ReplaceRunsSeparates | src/app/admin/blog/new/page.tsx:77-78 | after replacing runs by a member of the class, no two class characters are neighbours |
| NewPostPage.ReplaceRunsFixes | src/app/admin/blog/new/page.tsx:77-78 | a string with no runs to replace is left unchanged |
| NewPostPage.DropWhileEnd | src/app/admin/blog/new/page.tsx:79 | drops a suffix, and what is left does not end in a dropped character |
| NewPostPage.Trim | src/app/admin/blog/new/page.tsx:79 | the result neither starts nor ends with white space |
| NewPostPage.TrimKeepsSpaceless | src/app/admin/blog/new/page.tsx:79 | trimming a string without white space changes nothing |
| NewPostPage.Truncate | src/app/admin/blog/new/page.tsx:80 | the first 50 characters, or the whole string when shorter |
| NewPostPage.ReplaceRunsKeepsOthers | src/app/admin/blog/new/page.tsx:77-78 | a run replacement keeps, in order, every character outside the class and different from the separator |
| NewPostPage.CollapseKeepsAlnum | src/app/admin/blog/new/page.tsx:77-78 | collapsing white space and hyphens keeps every lower-case letter and digit, in order |
| NewPostPage.Collapse | src/app/admin/blog/new/page.tsx:77-78 | after the two run replacements no white space is left, no two hyphens are neighbours, and every other character comes from the input |
| NewPostPage.SlugFromTitle | src/app/admin/blog/new/page.tsx:74-80 | the derived slug has only lower-case letters, digits and hyphens, no double hyphen and at most 50 characters; when non-empty it matches the server's `/^[a-z0-9-]+$/` (it may be shorter than 3) |
| NewPostPage.SlugKeepsTitleText | src/app/admin/blog/new/page.tsx:74-80 | the slug with its hyphens removed is a prefix of the lower-cased title's ASCII letters and digits, in their order |
| NewPostPage.TrimRemovesNothing | src/app/admin/blog/new/page.tsx:79 | the trim step never removes anything from the collapsed title, so leading and trailing hyphens survive |
| NewPostPage.TruncateKeepsShape | src/app/admin/blog/new/page.tsx:80 | cutting a slug-shaped string short keeps it slug-shaped |
| NewPostPage.SlugShapedIsFixed | src/app/admin/blog/new/page.tsx:74-80 | deriving a slug from a slug-shaped title gives the title back |
| NewPostPage.KeptIsFixed | src/app/admin/blog/new/page.tsx:75-76 | lower-casing and stripping keep every character of a slug |
| NewPostPage.CollapseIsFixed | src/app/admin/blog/new/page.tsx:77-78 | collapsing leaves a slug unchanged |
| NewPostPage.TrimIsFixed | src/app/admin/blog/new/page.tsx:79 | trimming leaves a slug unchanged |
| NewPostPage.SlugIdempotent | src/app/admin/blog/new/page.tsx:72-83 | deriving the slug of a derived slug changes nothing |
| NewPostPage.OnTitleChange | src/app/admin/blog/new/page.tsx:72-83 | an empty title leaves the slug field alone; any other title sets it to the derived slug, which is slug-shaped |
| NewPostPage.Defaults | src/app/admin/blog/new/page.tsx:55-59 | a new form starts unpublished, not featured, with a five-minute read time |
| NewPostPage.SubmitBody | src/app/admin/blog/new/page.tsx:109-112 | an empty image is left out of the body; every other field is sent as entered |
| NewPostPage.ClientAcceptedIsServerAccepted | src/app/admin/blog/new/page.tsx:13-26 | a form that the page's schema accepts yields a body that the server's schema accepts |
| FormsPage.MatchesSearch | src/app/admin/forms/page.tsx:117-121 | the contact search test: an empty term matches every contact |
| FormsPage.FilteredContacts | src/app/admin/forms/page.tsx:117-121 | a contact is shown exactly when it matches the search in name, e-mail or phone; an empty search shows every contact |
| FormsPage.FilteredKeepsOrder | src/app/admin/forms/page.tsx:117-121 | the search keeps the table's order |
| FormsPage.Ids | src/app/admin/forms/page.tsx:135 | the ids of the shown contacts, in order |
| FormsPage.Toggle | src/app/admin/forms/page.tsx:123-129 | the id is selected afterwards exactly when it was not selected before; every other id keeps its state |
| FormsPage.ToggleTwiceRestores | src/app/admin/forms/page.tsx:123-129 | selecting and then deselecting an id restores the selection exactly |
| FormsPage.UntoggleRetoggle | src/app/admin/forms/page.tsx:123-129 | deselecting and then reselecting an id gives the same ids (possibly reordered) |
| FormsPage.OccursOnce | src/app/admin/forms/page.tsx:123-129 | in a selection without duplicates each id occurs once |
| FormsPage.ToggleKeepsNoDuplicates | src/app/admin/forms/page.tsx:123-129 | toggling never duplicates an id |
| FormsPage.SelectAll | src/app/admin/forms/page.tsx:131-137 | clears the selection when its length equals the number shown; otherwise selects exactly the shown ids |
| FormsPage.SelectAllFlipsCheckbox | src/app/admin/forms/page.tsx:252 | with contacts shown, select-all checks the header checkbox exactly when it was unchecked |
| FormsPage.SelectAllNoDuplicates | src/app/admin/forms/page.tsx:131-137 | select-all never selects an id twice |
| FormsPage.WithoutId | src/app/admin/forms/page.tsx:64 | after a deletion, a contact is kept exactly when its id differs |
| FormsPage.WithoutIds | src/app/admin/forms/page.tsx:85 | after a bulk deletion, a contact is kept exactly when its id was not selected |
| FormsPage.DeletionKeepsOrder | src/app/admin/forms/page.tsx:64-85 | both deletions keep the remaining contacts in order |
| FormsPage.CsvRow | src/app/admin/forms/page.tsx:95-101 | one field per header column |
| FormsPage.CsvLines | src/app/admin/forms/page.tsx:93-103 | the header line, then one comma-joined line per shown contact, in order |
| FormsPage.Csv | src/app/admin/forms/page.tsx:93-104 | the exported text starts with the header line |
| FormsPage.CsvLineCount | src/app/admin/forms/page.tsx:93-104 | when no field holds a line feed, the file has exactly one line feed per contact |
| FormsPage.CsvLinesAvoidLineFeed | src/app/admin/forms/page.tsx:93-103 | when no field holds a line feed, no line does |
| FormsPage.HeaderAvoidsLineFeed | src/app/admin/forms/page.tsx:94 | the header holds no line feed |
| FormsPage.RowAvoids | src/app/admin/forms/page.tsx:95-103 | a joined row holds no character that is absent from its fields and is not the comma |
| FormsPage.CsvRowColumns | src/app/admin/forms/page.tsx:95-103 | when no field holds a comma, a row has exactly four commas, so five columns |
| FormsPage.ContactsPage.constructor | src/app/admin/forms/page.tsx:28-32 | no contacts, an empty search, nothing selected, no details open |
| FormsPage.ContactsPage.Load | src/app/admin/forms/page.tsx:38-51 | a successful answer replaces the contacts; a failed one keeps them; nothing else changes |
| FormsPage.ContactsPage.ToggleContactSelection | src/app/admin/forms/page.tsx:123-129 | the selection becomes its toggle; nothing else changes; no id is duplicated |
| FormsPage.ContactsPage.ToggleSelectAll | src/app/admin/forms/page.tsx:131-137 | the selection becomes select-all over the shown contacts; nothing else changes |
| FormsPage.ContactsPage.DeleteContact | src/app/admin/forms/page.tsx:53-70 | a confirmed and successful deletion removes the contact's row and closes the details; otherwise the contacts and details are kept |
| FormsPage.ContactsPage.DeleteSelected | src/app/admin/forms/page.tsx:72-90 | with a non-empty, confirmed and settled selection, removes the selected contacts and clears the selection; otherwise nothing changes |
| AdminBlogPage.LoadPostsParams | src/app/admin/blog/page.tsx:86-93 | the page's query carries the printed page, limit 10, no category, and a published filter exactly when the status is not "all" |
| AdminBlogPage.ServerReadsPage | src/app/admin/blog/page.tsx:86-89 | the server reads back the page number the page sent |
| AdminBlogPage.ServerReadsLimit | src/app/admin/blog/page.tsx:86-89 | the server reads a limit of 10 |
| AdminBlogPage.ServerReadsStatus | src/app/admin/blog/page.tsx:91-93 | the server's filter selects exactly the posts the chosen status means |
| AdminBlogPage.PageRequestIsListed | src/app/admin/blog/page.tsx:83-100 | for a signed-in admin, the page's request gets a listing of its page: ten rows per page of the posts the status selects, with the matching total and page count |
| AdminBlogPage.ListingOfParsedPage | src/app/api/admin/blog/route.ts:56-120 | any query read as page p of ten rows gets page p of the filtered rows with its pagination |
| AdminBlogPage.MatchesSearch | src/app/admin/blog/page.tsx:171-174 | the post search test: an empty term matches every post |
| AdminBlogPage.FilteredPosts | src/app/admin/blog/page.tsx:171-174 | a post is shown exactly when the search occurs in its lower-cased title or category; an empty search shows every post |
| AdminBlogPage.FilteredPostsKeepOrder | src/app/admin/blog/page.tsx:171-174 | the search keeps the listing's order |
| AdminBlogPage.TogglePublishedBody | src/app/admin/blog/page.tsx:124 | the update flips the published flag |
| AdminBlogPage.ToggleFeaturedBody | src/app/admin/blog/page.tsx:142 | the update flips the featured flag |
| AdminBlogPage.PreviousPage | src/app/admin/blog/page.tsx:404 | one page back, never below page 1 |
| AdminBlogPage.NextPage | src/app/admin/blog/page.tsx:414 | one page on, never past the last page |
| AdminBlogPage.ButtonsKeepPageInRange | src/app/admin/blog/page.tsx:404-415 | from a page within range, both buttons lead to a page within range |
| AdminBlogPage.NextPreviousInverse | src/app/admin/blog/page.tsx:404-415 | "Siguiente" then "Anterior" returns to the same page, and so does the reverse, away from the ends |
| AdminBlogPage.PostsPage.constructor | src/app/admin/blog/page.tsx:49-55 | no posts, an empty search, status "all", page 1 of 1 |
| AdminBlogPage.PostsPage.Apply | src/app/admin/blog/page.tsx:96-100 | a listing replaces the rows and the page count; a failure keeps both; the filters and the page are kept |
| AdminBlogPage.PostsPage.Previous | src/app/admin/blog/page.tsx:404-405 | moves one page back; keeps the page within range; does nothing when the button is disabled |
| AdminBlogPage.PostsPage.Next | src/app/admin/blog/page.tsx:414-415 | moves one page on; keeps the page within range; does nothing when the button is disabled |
| AdminBlogPage.PostsPage.SetSearchTerm | src/app/admin/blog/page.tsx:241 | only the search term changes |
| AdminBlogPage.PostsPage.SetFilterStatus | src/app/admin/blog/page.tsx:251 | as written: only the status changes, and the current page is kept |
| AdminBlogPage.PostsPage.SetFilterStatusFromFirstPage | src/app/admin/blog/page.tsx:251 | corrected: the status changes and the page returns to 1 |
| AdminBlogPage.StatusChangeStrandsLaterPage | src/app/admin/blog/page.tsx:251 | from page 2 on, a status that selects 1 to 10 posts gets an empty page with a page count of 1 |
| AdminBlogPage.FirstPageShowsMatches | src/app/admin/blog/page.tsx:83-100 | the first page of a status shows min(10, matches) posts, so it is never empty when some post matches |
| BlogPage.BlogQueryReads | src/app/blog/page.tsx:40 | the page's request is read as page 1 of 50, with no category and no featured filter |
| BlogPage.BlogQueryListsFirstFifty | src/app/blog/page.tsx:40-43 | the page receives min(50, published) posts, and the total counts every published post |
| BlogPage.IndexOf | src/app/blog/page.tsx:46 | the first position of a value |
| BlogPage.IndexOfPrefix | src/app/blog/page.tsx:46 | a value's first position within a prefix is its first position overall |
| BlogPage.Distinct | src/app/blog/page.tsx:46 | `Array.from(new Set(…))`: no value twice, and exactly the values of the input |
| BlogPage.DistinctFirstAppearance | src/app/blog/page.tsx:46 | the values come out in the order of their first appearance |
| BlogPage.CategoryColumn | src/app/blog/page.tsx:46 | the category of each loaded post, in order |
| BlogPage.Categories | src/app/blog/page.tsx:46-47 | "Todos" first, then each category of the loaded posts exactly once, in order of first use |
| BlogPage.FilterByCategory | src/app/blog/page.tsx:57-59 | every post under "Todos"; otherwise exactly the posts of the chosen category, in order |
| BlogPage.FeaturedRegularPartition | src/app/blog/page.tsx:62-63 | the featured and regular sections split the filtered posts: each post lands in exactly one |
| BlogPage.SectionsKeepOrder | src/app/blog/page.tsx:62-63 | both sections keep the listing's order |
| BlogPage.CardImage | src/app/blog/page.tsx:205 | the post's image when it is non-empty, the default picture otherwise; never empty |
| BlogPage.Initial | src/app/blog/page.tsx:27-31 | no posts, only the "Todos" option, "Todos" chosen |
| BlogPage.Load | src/app/blog/page.tsx:37-54 | a listing replaces the posts and rebuilds the options; a failure changes nothing; the chosen category is kept |
| BlogPage.Sections | src/app/blog/page.tsx:57-63 | the two card sections of the posts the chosen category shows |
| BlogPage.SectionsShowChosenCategory | src/app/blog/page.tsx:57-63 | across both sections, a post is shown exactly when it is loaded and belongs to the chosen category (any, under "Todos") |
| Common.Utf16Length | src/app/api/admin/auth/route.ts:8-9 | zod's string length counts UTF-16 code units: at least one and at most two per character |
| Common.LowerChar | src/app/admin/blog/new/page.tsx:74 | an ASCII capital becomes its lower-case letter; lower-case letters, digits, white space and hyphens are kept; no ASCII capital comes out |
| Common.Lower | src/app/admin/blog/new/page.tsx:74 | `toLowerCase` never shortens a string and leaves no ASCII capital in it |
| Common.LowerFixes | src/app/admin/blog/new/page.tsx:74 | lower-casing leaves lower-case letters, digits, spaces and hyphens alone |
| Common.NullIfFalsy | src/app/api/admin/blog/route.ts:168-175 | `x \|\| null`, and the `if (!token)` test on the session cookie: the value exactly when it is a non-empty string |

## Left out

- The e-mail transport and the mail templates are left out. Whether delivery succeeds is the `delivered` parameter of `Notification.Notify`, and a failed send changes nothing in either intake answer.
- bcrypt's compare and JWT's sign and verify are the `Crypto` parameter. The secret, including its fallback value, and the token's expiry clock are not modelled.
- zod's e-mail and URL format checks are the `Formats` parameter.
- The database driver, the SQL text, collation and the order of rows with equal sort keys are left out.
- Database errors other than the paging failures are left out. A failure of the admin lookup during a session check is caught and answers 401: "Token inválido o expirado" in `AdminAuthRoute.CheckSession`, and `AdminBlogRoute.VerifyAuth` returns null, so `AdminBlogRoute.AdminListing` and `AdminBlogRoute.Admit` answer 401 "No autorizado". A failure anywhere else answers 500.
- AdminAuthRoute.Login: takes the body as already parsed into an object. A body that is not valid JSON makes `request.json()` throw, which answers 500; a JSON value that is not an object gets zod's single "expected object" issue and 400. Neither path is modelled.
- AdminBlogRoute.BlogStore.Create: the same unparsed-body gap (500 for invalid JSON, 400 for a non-object).
- ReviewsRoute.ReviewTable.Submit: the same unparsed-body gap.
- ContactRoute.ContactTable.Submit: the same unparsed-body gap.
- `Promise.all` is modelled as if its requests ran in sequence.
- Ratings and read times are integers here. Fractional numbers and JavaScript's float precision are left out.
- Ordering.Paginate: page and limit are exact integers here. In the source they are JavaScript numbers: `parseInt` rounds digit strings beyond 2^53, and a limit or offset of 1e21 or more is printed in exponent form into `LIMIT … OFFSET …`, which the database rejects, so the source answers 500. Values beyond the database's own LIMIT/OFFSET range are rejected too. The model lists rows for all of these instead.
- AdminBlogRoute.AdminListing: inherits that gap; a huge `page` or `limit` answers 500 in the source and 200 here.
- PublicBlogRoute.PublishedListing: inherits that gap; a huge `page` or `limit` answers 500 in the source and 200 here.
- Date formatting is a parameter (`formatDate`). Locales, the current time and the dashboard's "this month" statistic are left out. The creation time is the `now` parameter that stands for `NOW()`.
- Common.Lower: does not model Unicode case mapping beyond ASCII, the Latin-1 capitals, U+0130 and the Kelvin sign; other characters are kept as they are. The derived slug is the same either way, since every other character is stripped afterwards.
- FormsPage.MatchesSearch: inherits that gap. A contact named "ΣΟΦΙΑ" searched as "σοφια" is shown by the browser and not by the model.
- AdminBlogPage.MatchesSearch: inherits the same gap for titles and categories outside Latin-1.
- The static pages, layouts, headers, footers and floating buttons are left out.
- The login, contact and review forms' client-side copies of the server schemas are left out.
- The admin review and contact listing routes are left out, and so are the seed script and the deployment config.
- The post update and delete endpoints, the contact delete endpoint and the per-slug post endpoint with its view counter are left out. The pages see only their outcome, through the `confirmed`, `responseOk` and `settled` parameters.
- `AdminBlogRoute.ListedPost`: the model keeps the table's authorId. In the response, authorId is the joined admin's id, which is null without an author, and the admin SELECT omits a few columns.
- Network failures of the pages' fetches become a failed response (`None`, `ListFailed`, `PublicFailed`).
- The loading spinners are left out.
- `FormsPage.ContactsPage.Load`: requires the loaded contacts to have distinct ids, as the table's primary key guarantees.
- `AdminBlogPage.PostsPage.Apply`: stores a null page count as 0. The page never asks for the zero limit that produces one.

Some behaviours of the site are modelled as they are:

- Trimming the derived slug never removes anything. A title that starts or ends with a space or hyphen gives a slug that starts or ends with '-' (`NewPostPage.TrimRemovesNothing`).
- A category literally named "Todos" makes that option appear twice (`BlogPage.Categories`).
- Select-all compares only the number of selected ids with the number of shown contacts (`FormsPage.SelectAll`).
- A deleted contact's id stays selected (`FormsPage.ContactsPage.DeleteContact`).
- The public blog page loads only the first fifty published posts (`BlogPage.BlogQueryListsFirstFifty`).
- Logging out deletes the cookie but does not revoke the token.

## Findings

| source | as written | input that shows it | evidently intended | confidence | as-written member | corrected member |
|---|---|---|---|---|---|---|
| src/app/admin/blog/page.tsx:251 | changing the status filter keeps `currentPage`, and the reload effect re-requests that page with the new filter | on page 2 or later, choose a status that selects between 1 and 10 posts: the answer has no rows and a page count of 1, so the list is empty and the page buttons are hidden | a status change returns to page 1, whose listing shows the first matches | not executed | AdminBlogPage.StatusChangeStrandsLaterPage | AdminBlogPage.FirstPageShowsMatches |

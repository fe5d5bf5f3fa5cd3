# Catalog backend core, modelled in Dafny

This project models the core of a small e-commerce catalog backend written
in JavaScript on Express and SQL Server. The core is made of four parts:

- **The authentication service** (`auth.dfy`). It covers email and password
  validation, the six-digit reset code, `login`, `signup`, `forgotPassword`
  and `resetPassword`. The `users` and `password_resets` tables are fields
  of the class `AuthService`, and each operation updates them in place.
- **The product controller** (`products.dfy`). `getProducts` is a function
  from the tables and the query parameters to the response. It normalises
  the parameters, then joins, filters, orders, pages and counts the rows.
  `createProduct`, `updateProduct` and `deleteProduct` are methods of the
  class `ProductTable`.
- **The category controller** (`categories.dfy`). `getCategories` is a
  function. Create, update and delete are methods of `CategoryTable`,
  including the duplicate-name rule.
- **The upload middleware** (`upload.dfy`). This is the file filter and the
  rule that names a stored image.

Supporting modules give the semantics the core relies on:

- `js_text.dfy`: JavaScript `trim`, ASCII `toLowerCase`, `parseInt`,
  decimal `toString` and UTF-16 `length`.
- `tables.dfy`: SQL tables as sequences in scan order, with `WHERE`,
  `UPDATE`, `DELETE` and `OFFSET`/`FETCH`.
- `sorting.dfy`: a stable `ORDER BY` as insertion sort under a total preorder.
- `collations.dfy`: a database collation, modelled as a key function on
  strings. Two strings are equal when their keys are equal, `LIKE '%s%'`
  is containment of keys, and the order is the lexicographic order of keys.

Conventions:

- Tables have identity ids. They are kept strictly ascending and below the
  next id to be handed out.
- The authentication fields are strings, and a missing one is `""`, which
  is falsy like the empty string.
- Category and product request fields are `Option` values, and a missing one
  is `None`. A present but falsy value is kept as given: `Some("")`,
  `Some(0.0)` for a price, `Some(0)` for a category id. The checks treat it
  as falsy, as the source does.
- A route id that is missing or not a number is `None`.
- A `sql.Int` parameter outside the 32-bit range makes the statement fail,
  and the handler answers 500. The model reproduces this.
- A negative `OFFSET` or a non-positive `FETCH NEXT` makes `getProducts`
  answer 500. The model reproduces this too.
- These are parameters: the database clock, `Date.now()`, `Math.random()`,
  the server clock used for the token, and the salt `bcrypt` draws.
- Hashing, verification and token signing are the functions of a `Crypto`
  value. The only thing assumed about them is that a password verifies
  against its own hash.

## Model

| member | source | states |
|---|---|---|
| JsText.Trim | backend/src/controllers/category.controller.js:8 | `trim` removes exactly the leading and trailing JavaScript whitespace: the result is a slice of the input, its ends are not whitespace, and everything cut off is whitespace |
| JsText.TrimIdempotent | backend/src/controllers/product.controller.js:13 | trimming a trimmed string changes nothing |
| JsText.TrimEmpty | backend/src/controllers/category.controller.js:56 | `name.trim() === ''` holds exactly when the name is all whitespace |
| JsText.Utf16Length | backend/src/services/auth.service.js:14 | `password.length` counts UTF-16 code units: between one and two per character, exactly one per character when no character lies above U+FFFF, and for a single character one or two depending on whether it lies above U+FFFF |
| JsText.Utf16LengthConcat | backend/src/services/auth.service.js:14 | the code units of a concatenation are the sum of those of its parts |
| JsText.Utf16LengthCount | backend/src/services/auth.service.js:14 | the length is the number of characters plus the number of characters above U+FFFF, each of which is a surrogate pair |
| JsText.Contains | backend/src/controllers/category.controller.js:24 | the substring test behind `LIKE N'%' + @search + N'%'` holds exactly when the pattern occurs at some index |
| JsText.NatToString | backend/src/middlewares/upload.middleware.js:14 | the decimal form of a number: all digits, with no leading zero unless it is `0` |
| JsText.NatToStringValue | backend/src/middlewares/upload.middleware.js:14 | the decimal form reads back as the number |
| JsText.NatToStringLength | backend/src/services/auth.service.js:19 | a number in [10^(k-1), 10^k) has exactly k decimal digits |
| JsText.ParseInt | backend/src/controllers/product.controller.js:11-12 | the global `parseInt` with no radix: leading whitespace skipped, one optional sign, a `0x` prefix selecting base 16, then the longest run of digits; NaN (`None`) when that run is empty (a definition; its properties are the lemmas below) |
| JsText.ParseIntOfDecimal | backend/src/controllers/product.controller.js:11-12 | `parseInt` reads the decimal form of a number back as that number, whatever follows it |
| JsText.ParseIntOfNegative | backend/src/controllers/product.controller.js:11-12 | `parseInt` of `-` followed by a decimal number is the negated number |
| Tables.Filter | backend/src/controllers/product.controller.js:39-49 | `WHERE` keeps only rows of the table that satisfy the predicate and every such row, and keeps the whole table exactly when every row satisfies it |
| Tables.FilterMultiplicity | backend/src/controllers/product.controller.js:75-101 | every row satisfying the predicate is kept exactly as many times as the table holds it, and no other row is kept, so `COUNT(*)` over the same `WHERE` counts exactly the matching rows |
| Tables.FilterAll | backend/src/controllers/category.controller.js:22-27 | a predicate that every row satisfies keeps the whole table |
| Tables.Replace | backend/src/controllers/product.controller.js:199-216 | `UPDATE ... WHERE` rewrites exactly the matching rows in place and keeps the others and the length |
| Tables.Slice | backend/src/controllers/product.controller.js:57-58 | `OFFSET o ROWS FETCH NEXT l ROWS ONLY` is the run of at most `l` rows starting at `o`, empty past the end |
| Sorting.InsertionSort | backend/src/controllers/product.controller.js:51-56 | `ORDER BY` yields a permutation of its input that is sorted under the order |
| Sorting.SlicesInOrder | backend/src/controllers/product.controller.js:57-58 | in a sorted sequence, every row of an earlier window comes before every row of a later window |
| Sorting.ThenByIsTotalPreorder | backend/src/controllers/product.controller.js:51-56 | a comparator with a tie-breaking second key is a total preorder |
| Sorting.NullableIsComparator | backend/src/controllers/product.controller.js:53-55 | the SQL Server order that puts NULL first keeps the comparator laws |
| Collations.CompareUnderIsComparator | backend/src/controllers/product.controller.js:53 | ordering by `COLLATE` keys keeps the comparator laws |
| Upload.FileFilter | backend/src/middlewares/upload.middleware.js:22-38 | the file is accepted exactly when its name, with a missing name read as `''`, ends in a dot and an allowed extension in any letter case, or its MIME type is present and starts with `image/` in any letter case; otherwise it is rejected with "Only image files allowed" |
| Upload.ExtensionPattern | backend/src/middlewares/upload.middleware.js:23 | testing the end of the name against each extension is the same as matching `/\.(jpg\|...)$/i` at some index |
| Upload.FileFilterIgnoresCase | backend/src/middlewares/upload.middleware.js:23-24 | lower-casing the name and the MIME type does not change the decision |
| Upload.FileFilterRejectsAnonymous | backend/src/middlewares/upload.middleware.js:26-37 | a file with neither a name nor a MIME type is rejected |
| Upload.ExtName | backend/src/middlewares/upload.middleware.js:13 | `path.extname` is empty or a dot followed by characters that are neither dots nor slashes |
| Upload.BaseNameIsLastComponent | backend/src/middlewares/upload.middleware.js:13 | the base name `path.extname` looks at is the end of the path without its trailing slashes, preceded by a slash or by nothing |
| Upload.ExtNameIsLastDotSuffix | backend/src/middlewares/upload.middleware.js:13 | `path.extname` is empty exactly when the base name has no dot, has its only dot first, or is `..`; otherwise it is the suffix of the base name from its last dot, with at least one character before it |
| Upload.StoredExtension | backend/src/middlewares/upload.middleware.js:12-13 | when the original name has an extension, the stored extension is that extension lower-cased; when it has none, it is `.jpg`; either way it starts with a dot and has no other dot and no slash |
| Upload.StoredFilename | backend/src/middlewares/upload.middleware.js:14 | `product_${Date.now()}${ext}` (a definition; its properties are the two lemmas below) |
| Upload.StoredFilenameShape | backend/src/middlewares/upload.middleware.js:14 | the stored name starts with `product_`, has no slash, and `parseInt` of what follows the prefix is the timestamp |
| Upload.StoredFilenameExtension | backend/src/middlewares/upload.middleware.js:11-16 | the extension of the stored name `product_<ms><ext>` is the stored extension |
| Auth.IsValidEmail | backend/src/services/auth.service.js:10-11 | exactly one `@`, not first, with a `.` strictly inside the part after it and no whitespace anywhere (a definition; `Auth.ValidEmailMatchesPattern` ties it to the regular expression) |
| Auth.ValidEmailMatchesPattern | backend/src/services/auth.service.js:10-11 | `isValidEmail` accepts exactly the strings `/^[^\s@]+@[^\s@]+\.[^\s@]+$/` matches |
| Auth.HasAsciiLetter | backend/src/services/auth.service.js:15 | `/[A-Za-z]/` finds a letter exactly when some character is an ASCII letter |
| Auth.HasDigit | backend/src/services/auth.service.js:15 | `/\d/` finds a digit exactly when some character is an ASCII digit |
| Auth.IsStrongPassword | backend/src/services/auth.service.js:13-16 | a password is strong exactly when its characters plus its surrogate pairs number at least 8 and it contains an ASCII letter and an ASCII digit |
| Auth.OtpValue | backend/src/services/auth.service.js:18-19 | `Math.floor(100000 + Math.random() * 900000)` lies in [100000, 999999] |
| Auth.GenerateOtp | backend/src/services/auth.service.js:18-19 | the code is six decimal digits without a leading zero, and `parseInt` reads it back as the drawn number |
| Auth.FindUser | backend/src/services/auth.service.js:33-41 | the lookup by email finds nothing exactly when no user's email equals it under the collation; otherwise it finds a user whose email equals it |
| Auth.FindCode | backend/src/services/auth.service.js:176-191 | the reset query finds nothing exactly when no row is redeemable, that is, no row whose owner has the email, whose code equals the given one and whose expiry is after now; otherwise it finds a redeemable row |
| Auth.CodeAfterForgot | backend/src/services/auth.service.js:136-150 | after the user's old codes are deleted and the new one is inserted, the only row redeemable for that email is the new one, and it is redeemable with its code until it expires |
| Auth.CodeAfterReset | backend/src/services/auth.service.js:196-211 | after the redeemed row is deleted, no code at all is redeemable for that email |
| Auth.RedeemedOwner | backend/src/services/auth.service.js:181-187 | the owner of a redeemable row is the user that the email finds |
| Auth.FindUserUnique | backend/src/services/auth.service.js:91-98 | with unique emails, a user with an equal email is the one the lookup finds |
| Auth.LoginAfterReset | backend/src/services/auth.service.js:196-203 | after the owner's hash is replaced, the lookup by email finds the owner with the new hash |
| Auth.SignupStep | backend/src/services/auth.service.js:100-109 | appending a user with the next id and an unused email keeps ids ascending and emails unique, and the lookup then finds that user |
| Auth.ForgotStep | backend/src/services/auth.service.js:136-150 | replacing a user's codes with one new row keeps the reset invariants and leaves that single row for that user |
| Auth.ResetStep | backend/src/services/auth.service.js:196-211 | the update and the delete of a reset keep both tables consistent, remove the redeemed row, leave no redeemable code and make the lookup find the new hash |
| Auth.ReplaceKeepsUsers | backend/src/services/auth.service.js:196-203 | changing password hashes keeps every user's id and email, hence ascending ids and unique emails |
| Auth.AuthService.constructor | backend/src/services/auth.service.js:3 | the service starts with empty tables and its invariant holds |
| Auth.AuthService.Login | backend/src/services/auth.service.js:25-66 | a missing field is 400; an unknown email and a wrong password are the same 401; success is exactly the found user's password verifying, and the token signs that user's id and email with a one-hour lifetime |
| Auth.AuthService.Signup | backend/src/services/auth.service.js:72-112 | errors in the order missing field, email format, password strength, email taken; failure changes nothing; success appends exactly one user with the next id and the password's hash, the invariant is kept, and that email and password then log in as the new user |
| Auth.AuthService.ForgotPassword | backend/src/services/auth.service.js:117-154 | an empty email is 400 and an unknown one is 404, both without changes; success deletes all of the user's old codes, stores one new six-digit code valid for 15 minutes, touches no other user's rows, and after it the given email redeems exactly that code until it expires |
| Auth.AuthService.Issue | backend/src/services/auth.service.js:136-150 | the delete and insert of `forgotPassword`: the user ends with exactly one code row, the other rows are kept, and the email redeems exactly that code before its expiry |
| Auth.AuthService.ResetPassword | backend/src/services/auth.service.js:161-212 | errors in the order missing field, weak password, no redeemable code, each without changes; success happens exactly when a redeemable code exists, replaces only the owner's hash, deletes only the redeemed row, leaves no code to redeem a second time, and lets the new password log in |
| Auth.AuthService.Redeem | backend/src/services/auth.service.js:196-211 | the update and the delete of a reset, keeping the invariant, so that the lookup by email finds the owner with the new hash |
| Categories.OrNull | backend/src/controllers/category.controller.js:84 | `description \|\| null`: an empty description is stored as NULL and any other one as given |
| Categories.NewerFirstIsTotalPreorder | backend/src/controllers/category.controller.js:29 | `ORDER BY created_at DESC` is a total preorder |
| Categories.ListCategories | backend/src/controllers/category.controller.js:6-45 | the result is sorted newest first, is a permutation of the rows the trimmed search selects, and a row is in it exactly when its name contains the search under the collation (every row when the trimmed search is empty) |
| Categories.BlankSearchListsAll | backend/src/controllers/category.controller.js:8-27 | a missing or all-whitespace search lists every category |
| Categories.Clash | backend/src/controllers/category.controller.js:150-156 | the duplicate query finds a row: some row other than the excluded id has a name equal to the given one under the collation; `createCategory` (lines 69-74) excludes no id (a definition; the lemmas below are its properties) |
| Categories.RenameToOwnName | backend/src/controllers/category.controller.js:145-161 | renaming a category to a name equal only to its own name is not a clash |
| Categories.InsertKeepsNamesUnique | backend/src/controllers/category.controller.js:65-89 | appending a row with the next id and a name that clashes with no row keeps the ids ascending and the names unique |
| Categories.RenameKeepsNamesUnique | backend/src/controllers/category.controller.js:145-174 | renaming one row to a name that clashes with no other row keeps the names unique and the ids ascending and below the next id |
| Categories.CategoryTable.constructor | backend/src/controllers/category.controller.js:1 | the table starts empty with its invariant |
| Categories.CategoryTable.Create | backend/src/controllers/category.controller.js:52-103 | a blank name is 400 and a name equal under the collation to an existing one is 409, both without changes; success appends exactly one row with the trimmed name and the description or NULL, and the names stay unique |
| Categories.CategoryTable.Update | backend/src/controllers/category.controller.js:109-188 | errors in the order invalid id 400, blank name 400, id out of range 500, missing row 404, clash with another row 409, each without changes; success rewrites exactly the row with that id and keeps the names unique |
| Categories.CategoryTable.Delete | backend/src/controllers/category.controller.js:193-241 | an invalid id is 400 and an id out of range is 500; a missing row is 404; success deletes exactly the rows with that id, after which none exists |
| Categories.DeleteOne | backend/src/controllers/category.controller.js:221-227 | with ascending ids, deleting an existing id removes exactly one row |
| Products.IntOr | backend/src/controllers/product.controller.js:11-12 | `parseInt(p) \|\| fallback`: NaN and 0 give the fallback; any other parsed number is used as is |
| Products.SearchTerm | backend/src/controllers/product.controller.js:13 | there is no search exactly when the parameter is missing or all whitespace; otherwise the search is the trimmed, non-empty parameter |
| Products.CategoryParam | backend/src/controllers/product.controller.js:14-16 | a category filter applies exactly when the parameter is given, non-empty and parses to a number other than 0, and then it is that number |
| Products.Normalize | backend/src/controllers/product.controller.js:11-20 | page and limit are the parsed values or 1 and 20 and never 0; the sort is by price exactly for `price` and descending exactly for `desc`; search and category follow the two rules above |
| Products.NormalizeDefaults | backend/src/controllers/product.controller.js:11-19 | a request without parameters asks for page 1 of 20 rows, by name ascending, unfiltered |
| Products.NormalizeReadsDecimal | backend/src/controllers/product.controller.js:11-12 | a page and a limit written in decimal are read as those numbers |
| Products.ExecutableBounds | backend/src/controllers/product.controller.js:20 | a query that runs has page and limit at least 1 |
| Products.Selected | backend/src/controllers/product.controller.js:39-49 | the `WHERE` clause: a present search requires a non-NULL name containing it under the collation, a present category requires that category id, and both together are ANDed (a definition) |
| Products.Join | backend/src/controllers/product.controller.js:35 | the inner join yields a row for every product that has a category, carrying that category's name, and no other rows; it loses no row exactly when every product has a category |
| Products.JoinAfterFilter | backend/src/controllers/product.controller.js:35-49 | filtering the joined rows by product columns is the same as joining the filtered products |
| Products.RowOrderIsTotalPreorder | backend/src/controllers/product.controller.js:51-56 | the order by name or price, in either direction, then `created_at DESC`, is a total preorder |
| Products.Ordered | backend/src/controllers/product.controller.js:24-56 | the listed rows are sorted in the query's order and are a permutation of the joined, filtered rows |
| Products.CeilDiv | backend/src/controllers/product.controller.js:110 | `Math.ceil(total / limit)` is the least number of pages of `limit` rows that holds `total` rows |
| Products.PageOf | backend/src/controllers/product.controller.js:24-112 | the data is the window at the offset of the ordered rows, is sorted, holds only listed rows, and has min(limit, rows left) rows; the pagination echoes page and limit and carries the count of the filtered products and the page count |
| Products.ListProducts | backend/src/controllers/product.controller.js:9-120 | the answer is 500 "Failed to fetch products" exactly when the normalised parameters cannot run; otherwise page and limit are at least 1 and the answer is the page at offset `(page - 1) * limit` |
| Products.PageStartsAfterEnd | backend/src/controllers/product.controller.js:20 | past the page count, the offset is past the total |
| Products.PageStartsBeforeEnd | backend/src/controllers/product.controller.js:20 | up to the page count, the offset is before the total |
| Products.ListedWithinTotal | backend/src/controllers/product.controller.js:75-101 | the joined rows are never more than the counted ones |
| Products.PageOfPastLast | backend/src/controllers/product.controller.js:51-112 | a page past the page count has no rows |
| Products.PastLastPageIsEmpty | backend/src/controllers/product.controller.js:9-112 | a page past the last one is empty, not an error |
| Products.PageOfCovers | backend/src/controllers/product.controller.js:24-112 | when every product has its category, the count equals the listed rows and every page up to the page count has a row |
| Products.PagesCoverListing | backend/src/controllers/product.controller.js:9-112 | the same, for a request: the count and the data agree, and no page up to the page count is empty |
| Products.WindowsInOrder | backend/src/controllers/product.controller.js:51-59 | two windows of the same listing that do not overlap are in the listing's order |
| Products.OffsetsApart | backend/src/controllers/product.controller.js:20 | a later page starts after an earlier one ends |
| Products.ListingPagesInOrder | backend/src/controllers/product.controller.js:20-59 | every row of an earlier page of a listing comes before every row of a later page |
| Products.PagesInOrder | backend/src/controllers/product.controller.js:9-112 | for two requests that differ only in the page, every row of the earlier page comes before every row of the later one |
| Products.ProductTable.constructor | backend/src/controllers/product.controller.js:1 | the table starts empty with its invariant |
| Products.HasRequiredFields | backend/src/controllers/product.controller.js:131 | the negation of `!name \|\| !price \|\| !category_id`: each of the three is present and not empty, 0 or 0.0 (a definition) |
| Products.ProductTable.Create | backend/src/controllers/product.controller.js:127-165 | a missing or falsy name, price or category is 400 and a category id out of range is 500, both without changes; success appends exactly one row with the next id and the body's fields |
| Products.ProductTable.Update | backend/src/controllers/product.controller.js:172-229 | errors in the order invalid id 400, id out of range 500, missing row 404, category out of range 500, each without changes; success overwrites the five fields of exactly the row with that id and keeps every id and creation time |
| Products.ProductTable.Delete | backend/src/controllers/product.controller.js:236-272 | an invalid id is 400 and an id out of range is 500, without changes; otherwise the rows with that id are deleted, and the answer is 404 exactly when there was none |

## Left out

- `parseInt` is modelled for decimal and signed integers. JavaScript numbers are doubles, so integers beyond 2^53 lose precision; the model does not capture this.
- `Number(id)` and `isNaN` on route ids are not spelled out. The id arrives as `Option<int>`, where `None` stands for a missing value or NaN. Other numeric forms such as `1e3` or `0x10` are not modelled.
- Query parameters given as arrays (`?page=1&page=2`) are not modelled. Every parameter is one string or missing.
- `LIKE` wildcards (`%`, `_`, `[`) inside the search string are matched literally. SQL Server would interpret them.
- The collations (`Khmer_100_CI_AI` and the database default on emails and codes) are one abstract key function each. The rules of the concrete collation are not spelled out, and neither is trailing-space padding.
- Lower-casing covers ASCII letters only. JavaScript `toLowerCase` also maps non-ASCII letters.
- Auth.OtpValue: `Math.random()` is an exact real in [0, 1). Floating-point rounding of the product is not modelled.
- Prices are exact reals. The `decimal(18, 2)` rounding and range of the column are not modelled.
- Only the JSON types the source expects are modelled: strings for text fields, a number for `price` (`Option<real>`) and for `category_id` (`Option<int>`). Other types in a body, such as a string price, a boolean or an object, are not modelled.
- A Dafny `string` holds Unicode scalar values, so a JavaScript string with a lone surrogate cannot be represented. JsText.Utf16Length counts only well-formed strings.
- Password hashing, its verification and token signing (`bcrypt`, `jsonwebtoken`, `JWT_SECRET`) are abstract functions. The only assumption is that a password verifies against its own hash.
- `sendOtpEmail` is not part of this model. ForgotPassword returns the code it would send, and a failed send is not modelled.
- Database failures other than the modelled ones (an `sql.Int` out of range, a negative `OFFSET`, a non-positive `FETCH`) are not modelled: lost connections, timeouts, constraint violations. Concurrent requests and their races are not modelled either.
- The schema is not part of this model, so foreign keys, `NOT NULL` constraints and cascades are left out. Products.ProductTable.Create accepts any category id in range, and Categories.CategoryTable.Delete checks no products.
- Products.Listed looks a category up by id and takes the first match. That equals the inner join because category ids are unique.
- The count query has no join, and the model follows the code. `total` counts the filtered products even when some have no category. Products.PageOfCovers and Products.PagesCoverListing state the agreement under the assumption that every product has its category.
- The 500 answers of `getCategories` and `createCategory` come only from database failures, so they are not modelled.
- Upload.ExtName: Node's POSIX `path` module is assumed, so only `/` separates path components. On Windows, `path` also treats `\` and a drive prefix such as `C:` as separators; that is not modelled.
- multer's 5 MB size limit, its disk storage and the upload directory are not modelled. Only the filter decision and the file name are.
- `db.js`, `email.service.js`, the routes, `app.js`, the auth controller's forwarding and the seed script are not part of this model.

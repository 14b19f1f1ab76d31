# foodgram backend core in Dafny

This project models the request-handling core of the foodgram recipe service, a Django REST backend. Users publish recipes made of tags and ingredient amounts. They follow other authors, mark favorites, fill a shopping cart and download a shopping list that sums the ingredients of the recipes in the cart. The model covers:

- the stored state and the constraints the models declare (`Schema`);
- the username validator (`Usernames`), user registration and the profile fields `is_subscribed`, `recipes` (with `recipes_limit`) and `recipes_count` (`Users`);
- validation of the recipe payload on POST, PUT and PATCH (`RecipePayload`);
- recipe create and update, including the short link issued on save (`RecipeWrite`, `ShortLinks`);
- the endpoints that add or remove one subscription, cart entry or favorite (`RelationViews`);
- the shopping-list download (`ShoppingList`);
- the owner-or-read-only permission and the order of the 401/404/403 checks (`Permissions`);
- the `is_favorited` and `is_in_shopping_cart` recipe filters (`Filters`);
- the base64 image field's header parsing and the recipe image field (`Images`).

`Common`, `Text` and `Rows` hold shared definitions:

- Python's `str(int)`, `int(str)`, `s[:n]`, `startswith` and `split`;
- `len(set(xs))`;
- deleting rows from a table.

The database is one immutable value. Relation tables are sequences of rows, so "one row per pair" is an invariant the operations must keep, and each write operation is proved to preserve `Schema.Valid`. The constants module the source imports is not part of this model, so the amount bounds, the cooking-time bounds and `MAX_HASH_LENGTH` are fields of `Common.Config`, with `min <= max` and a hash length of at least 1. Database-assigned ids, the md5 digest and the clock are parameters. Each create or update method takes the new id or the digest string as an argument.

## Model

| member | source | states |
|---|---|---|
| Usernames.ValidateUsername | backend/users/validators.py:6-12 | a username is accepted exactly when, apart from at most one final newline, it is non-empty and every character is an ASCII letter, digit or one of `_ . @ + -`; an accepted name is returned unchanged |
| Usernames.EmptyRejected | backend/users/validators.py:7-11 | the empty username is refused |
| Usernames.AcceptedForms | backend/users/validators.py:7 | a non-empty name over the character class is accepted, and so is the same name followed by one newline (`$` matches before a final newline) |
| Usernames.RejectedChar | backend/users/validators.py:7-11 | any character outside the class, other than a final newline, makes the name invalid |
| Usernames.DoubleNewlineRejected | backend/users/validators.py:7 | two trailing newlines are refused: only the last newline is excused |
| Schema.IngredientPairsUnique | backend/recipes/models.py:16-34 | with unique ingredient names, two ingredients with the same (name, unit) are the same ingredient |
| Schema.NoSelfSubscription | backend/users/models.py:72-82 | a database meeting the subscription constraints holds no (u, u) pair |
| Users.RegisterUser | backend/users/models.py:17-33 | both fields are trimmed; the field checks pass exactly when neither trimmed value is blank, the username passes the validator and neither value is taken as submitted; a blank field reports only that it is blank, any other field reports every failing check; after the field checks the email's domain is lowercased, and a normalized email already stored breaks the unique constraint and is refused with `cannot_create_user` alone; on success only the new user, with the trimmed username and the normalized email, is added |
| Users.NormalizeEmail | backend/users/models.py:17-24 | normalizing keeps the length, and an email without '@' is stored as given |
| Users.NormalizeSplit | backend/users/models.py:17-24 | normalizing `name@domain`, with no '@' in the domain, lowercases the domain and keeps the name |
| Users.NormalizeIdempotent | backend/users/models.py:17-24 | normalizing a stored email again changes nothing |
| Users.NormalizeKeepsAt | backend/users/models.py:17-24 | an email with an '@' still has one after normalizing |
| Users.BlankEmailRefused | backend/users/models.py:17-24 | an empty or white-space-only email (`blank=False`) is refused as blank and not also reported as taken |
| Users.RegisterKeepsValid | backend/users/models.py:17-33 | a successful registration keeps every database constraint, in particular unique usernames and emails |
| Users.DuplicateRegistrationRefused | backend/users/models.py:17-28 | after one registration, a second one with the same username is refused as taken, and one with the same email is refused, as taken when that email is already in normalized form |
| Users.DomainCaseVariantRefused | backend/users/models.py:17-24 | after one registration, a second one whose email differs only in the case of its domain is refused, with `cannot_create_user` alone when its other checks pass |
| Users.IsSubscribed | backend/users/serializers.py:43-49 | `is_subscribed` is false for an anonymous request and otherwise holds exactly when the (requester, profile) pair is stored |
| Users.SubscribedAfterSubscribe | backend/users/serializers.py:43-49 | after a subscribe that stores the pair (and then answers 500) the profile shows `is_subscribed`, and it did not before |
| Users.NotSubscribedAfterUnsubscribe | backend/users/serializers.py:43-49 | on a table of unique pairs, a successful unsubscribe clears `is_subscribed` |
| Users.LimitRecipes | backend/users/serializers.py:65-76 | the limited list is always a prefix of the author's recipes |
| Users.NoLimitGivesAll | backend/users/serializers.py:67-73 | a missing or empty `recipes_limit` leaves the list whole |
| Users.RefusedLimitGivesAll | backend/users/serializers.py:70-73 | a `recipes_limit` that `int` refuses leaves the list whole |
| Users.DecimalLimit | backend/users/serializers.py:69-71 | the decimal form of n gives the first n recipes, or all of them when there are fewer |
| Users.ZeroLimitGivesNone | backend/users/serializers.py:69-71 | `"0"` is a truthy string and gives no recipes |
| Users.NegativeLimitGivesAll | backend/users/serializers.py:70-73 | a negative limit makes the queryset slice raise ValueError, which is caught, so every recipe is listed |
| Users.NonNumericLimitGivesAll | backend/users/serializers.py:70-73 | a limit with no digit at all leaves the list whole |
| Users.TrailingSpaceLimit | backend/users/serializers.py:67-73 | the decimal form of n followed by one white-space character, `\x1c` to `\x1f` included, still gives the first n recipes |
| Users.LimitWithinCount | backend/users/serializers.py:65-79 | when the recipes are listed once each, the limited list is never longer than `recipes_count`, and has exactly that length when no limit applies |
| Text.ParseIntOfIntToString | backend/users/serializers.py:71 | `int` reads back every integer `str` writes, negative ones included |
| Text.ParseIntNeedsDigit | backend/users/serializers.py:71-73 | a string without a digit is refused by `int` |
| Text.TrailingSpaceIgnored | backend/users/serializers.py:71 | `int` reads digits followed by one white-space character as the digits' value |
| RecipePayload.FieldProblems | backend/api/serializers.py:127-136 | every field of the payload is checked and every failure is reported, each under its own field |
| RecipePayload.Validate | backend/api/serializers.py:180-215 | a payload is accepted exactly when it is acceptable: both lists present, non-empty and free of duplicates, ids stored, amounts in range, a non-empty image, a cooking time in range, and every key present on POST and PUT; the accepted data carries the submitted values |
| RecipePayload.IdsDistinct | backend/api/serializers.py:205-207 | `len(ids) != len(set(ids))` fails exactly when two entries share an id |
| RecipePayload.AcceptedIsAcceptable | backend/api/serializers.py:194-215 | no field problem, plus both lists on a PATCH, means the payload is acceptable |
| RecipePayload.AcceptableIsAccepted | backend/api/serializers.py:194-215 | an acceptable payload has no field problem |
| RecipePayload.EmptyIngredientsRejected | backend/api/serializers.py:203-204 | an empty ingredient list is a field error on `ingredients` |
| RecipePayload.DuplicateIngredientsRejected | backend/api/serializers.py:205-207 | two valid entries with the same ingredient id are a field error on `ingredients` |
| RecipePayload.AmountOutOfRangeRejected | backend/api/serializers.py:127-136 | an amount outside [min, max] is a field error that lists exactly the offending positions, the given one among them |
| RecipePayload.EmptyTagsRejected | backend/api/serializers.py:211-212 | an empty tag list is a field error on `tags` |
| RecipePayload.DuplicateTagsRejected | backend/api/serializers.py:213-214 | a repeated stored tag is a field error on `tags` |
| RecipePayload.EmptyImageRejected | backend/api/serializers.py:21-25 | an empty-string image is a field error on `image` |
| RecipePayload.PatchNeedsTagsAndIngredients | backend/api/serializers.py:194-200 | a PATCH whose fields all pass but that lacks `tags` is refused with the no-tags error, and one that has tags but lacks `ingredients` with the no-ingredients error |
| RecipePayload.FullModesRequireTags | backend/api/serializers.py:181-186 | on POST and PUT a missing `tags` key is a `required` field error |
| RecipeWrite.RowsOf | backend/api/serializers.py:242 | the rows kept for a recipe are exactly the table's rows for that recipe |
| RecipeWrite.RowsOfRowsFor | backend/api/serializers.py:217-225 | the rows built for a recipe belong to that recipe and to no other |
| RecipeWrite.SaveRecipe | backend/recipes/models.py:119-121 | saving changes at most the short link: an existing link is kept, and an empty one is replaced by a link no stored recipe uses, which is non-empty when the digest is |
| RecipeWrite.CreateRecipe | backend/api/serializers.py:227-235 | an anonymous POST is refused with 401 and an invalid payload with the validation errors; otherwise the new recipe is authored by the requester, carries the submitted fields and the set of the submitted tags, gets a fresh short link and one ingredient row per entry; no other recipe or row changes, and the database stays valid |
| RecipeWrite.InsertRecipe | backend/api/serializers.py:227-235 | `create` on an accepted payload adds exactly one recipe, authored by the requester, with the submitted fields, the tag set and a link no stored recipe has, plus one row per entry; nothing else changes, and a valid database stays valid |
| RecipeWrite.CreateKeepsValid | backend/api/serializers.py:227-235 | storing an accepted new recipe with its rows keeps every database constraint |
| RecipeWrite.StoreKeepsValid | backend/recipes/models.py:61-161 | replacing a recipe and the ingredient table by valid ones with a fresh short link keeps the database valid |
| RecipeWrite.UpdateRecipe | backend/api/serializers.py:237-244 | a PUT or PATCH is refused with 401, 404 or 403 in that order, then with the validation errors; otherwise only this recipe changes: same author, tags replaced, the submitted fields overwritten, the link kept, and its ingredient rows become exactly the submitted entries while other recipes' rows stay; the database stays valid |
| RecipeWrite.ReplaceRecipe | backend/api/serializers.py:237-244 | `update` on an accepted payload keeps the author and a set link, replaces the tag set and the recipe's rows by the submitted ones, overwrites only the present fields and leaves every other recipe and row alone; a valid database stays valid |
| RecipeWrite.ResponseStatus | backend/api/serializers.py:143-177 | a committed create or update answers 500, because the response serializer reads related names the models do not define; a refusal answers 400 for validation errors, 401 for an anonymous request, and 403 or 404 otherwise |
| RecipeWrite.UpdateKeepsValid | backend/api/serializers.py:237-244 | replacing one recipe's tags, fields and rows by accepted ones keeps every database constraint |
| ShortLinks.FirstCandidate | backend/recipes/services.py:13-16 | the first candidate is the digest cut to MAX_HASH_LENGTH characters |
| ShortLinks.RetryInjective | backend/recipes/services.py:20 | distinct retry numbers give distinct candidate links |
| ShortLinks.RetryLength | backend/recipes/services.py:20 | a retry has MAX_HASH_LENGTH characters for i below 10 and more from i = 10 on |
| ShortLinks.GenerateShortLink | backend/recipes/services.py:9-22 | an existing link is returned unchanged; otherwise the result is the first candidate in retry order that no stored recipe uses, every earlier candidate being taken, and the loop ends |
| RelationViews.StatusCode | backend/api/views.py:77-121 | Created is 201, NoContent is 204, a stored write whose response cannot be built is 500, and every refusal is 400, 401 or 404 |
| RelationViews.Subscribe | backend/api/views.py:77-104 | subscribing inserts the pair exactly when the requester is logged in, the author exists, the pair is new and the author is not the requester, and then answers 500 rather than 201, because the profile serializer reads `user_subscribers`, which the user model does not have; an existing pair is refused before self-subscription; a refusal changes nothing |
| RelationViews.Unsubscribe | backend/api/views.py:106-121 | unsubscribing deletes the first matching row exactly when the requester is logged in, the author exists and the pair is stored; otherwise nothing changes |
| RelationViews.AddToCart | backend/api/views.py:146-164 | a recipe is added to the cart exactly when the requester is logged in, the recipe exists and it is not already in the cart |
| RelationViews.RemoveFromCart | backend/api/views.py:166-178 | a recipe is removed from the cart exactly when the requester is logged in, the recipe exists and it is in the cart |
| RelationViews.Favorite | backend/api/views.py:200-224 | POST inserts a new favorite and DELETE removes every matching row; POST on a present pair and DELETE on an absent one give 400; a refusal changes nothing |
| RelationViews.ValidateNewRelation | backend/api/serializers.py:304-312 | a (user, recipe) pair passes exactly when it is not yet stored, and passes unchanged |
| RelationViews.ValidateAgreesWithViews | backend/api/serializers.py:304-312 | on an existing recipe the relation serializers' `validate` refuses exactly the pairs the cart and favorite POST views refuse as duplicates, and a pair it passes is the one those views append |
| RelationViews.ValidatedInsertKeepsValid | backend/api/serializers.py:304-312 | saving a validated pair of a stored user and a stored recipe keeps the table unique and its rows stored |
| RelationViews.SubscribeKeepsValid | backend/users/models.py:72-82 | a subscribe request keeps the subscription table unique and free of self-subscriptions |
| RelationViews.UnsubscribeKeepsValid | backend/users/models.py:72-82 | an unsubscribe request keeps every constraint, and on a unique table leaves no row for the pair |
| RelationViews.CartRequestsKeepValid | backend/recipes/models.py:213-221 | cart additions and removals keep the cart table unique over stored users and recipes |
| RelationViews.FavoriteKeepsValid | backend/recipes/models.py:184-192 | favorite requests keep the favorites table unique over stored users and recipes |
| RelationViews.SubscribeUnsubscribe | backend/api/views.py:77-121 | a subscribe that stores the pair, followed by an unsubscribe, restores the database exactly |
| RelationViews.SubscribeTwice | backend/api/views.py:80-87 | once a subscribe has stored the pair, a second subscribe to the same author is refused as already subscribed |
| RelationViews.CartAddRemove | backend/api/views.py:146-178 | adding then removing a recipe restores the database, and adding it twice is refused |
| RelationViews.FavoriteAddRemove | backend/api/views.py:200-224 | favoriting then unfavoriting restores the database, and favoriting twice is refused |
| ShoppingList.Aggregate | backend/api/views.py:233-238 | grouping yields one group per distinct key, the keys of the rows, each holding the sum of the amounts of its rows |
| ShoppingList.AddTo | backend/api/views.py:233-238 | adding a row adds its amount to its key's total and to no other |
| ShoppingList.Render | backend/api/views.py:239-245 | the file is empty exactly when there is no group |
| ShoppingList.Line | backend/api/views.py:241-245 | every line ends with a newline |
| ShoppingList.DownloadShoppingCart | backend/api/views.py:226-250 | an anonymous request is refused, and a logged-in one always gets a file |
| ShoppingList.GroupTotals | backend/api/views.py:233-238 | each line's total equals the reference sum, over all ingredient rows, of the amount of each row with that key times how often its recipe is in the cart |
| ShoppingList.GroupKeys | backend/api/views.py:233-238 | there is a line for a key exactly when some row of a recipe in the cart has that ingredient name and unit |
| ShoppingList.OneLinePerKey | backend/api/views.py:233-245 | no key has two lines, so the number of lines is the number of distinct keys |
| ShoppingList.EmptyCartEmptyFile | backend/api/views.py:233-245 | a requester with an empty cart downloads an empty file |
| ShoppingList.OtherRecipesIgnored | backend/api/views.py:233-235 | rows of recipes outside the cart do not affect the list |
| ShoppingList.InCart | backend/api/views.py:233-235 | the rows kept are exactly the rows whose recipe is in the requester's cart |
| ShoppingList.UniqueCartJoinsOnce | backend/recipes/models.py:213-221 | with unique cart pairs, a recipe in the cart joins once, so each row adds its own amount |
| Permissions.HasPermission | backend/api/permissions.py:5-11 | a logged-in user always passes; an anonymous one passes only a safe method outside the `me` action |
| Permissions.HasObjectPermission | backend/api/permissions.py:13-17 | safe methods always pass; an unsafe one passes exactly for the object's author |
| Permissions.ListGate | backend/api/views.py:182-185 | on the recipe list, a safe method or a logged-in user passes, and the only refusal is 401 |
| Permissions.DetailGate | backend/api/views.py:182-185 | on a recipe, the request passes exactly when the recipe exists and the method is safe or the requester is its author; anonymous unsafe requests get 401, missing recipes 404, and other users' unsafe requests 403 |
| Permissions.UserGate | backend/api/views.py:31-32 | for `retrieve` and `me`, which keep the view's pair (`IsAuthenticated`, `OwnerOrReadOnly`), a request passes the view-level checks exactly when it is authenticated, and the only refusal is 401 |
| Permissions.MeRefusesAnonymous | backend/api/permissions.py:5-11 | `OwnerOrReadOnly` alone refuses an anonymous reader on `me` but not on another action; with `IsAuthenticated` in front, both get 401 |
| Permissions.OnlyAuthorWrites | backend/api/permissions.py:13-17 | every unsafe request let through to an existing recipe comes from its author |
| Permissions.ReadsAlwaysPass | backend/api/permissions.py:8-17 | every safe request passes, on the list and on an existing recipe |
| Filters.Join | backend/api/filters.py:27 | the joined queryset holds exactly the input recipes the user has a row for |
| Filters.RelationFilter | backend/api/filters.py:25-33 | with a false value or an anonymous user the input is returned unchanged, and the result never holds a recipe the input lacks |
| Filters.FilterIsFavorited | backend/api/filters.py:25-28 | with a true value and a logged-in user it keeps exactly the input recipes the user has favorited, and otherwise returns the input |
| Filters.FilterIsInShoppingCart | backend/api/filters.py:30-33 | with a true value and a logged-in user it keeps exactly the input recipes in the user's cart, and otherwise returns the input |
| Filters.JoinOfUniqueTable | backend/api/filters.py:25-33 | on a table of unique pairs the join equals the plain membership filter, in queryset order |
| Filters.FiltersAreSubsequences | backend/api/filters.py:25-33 | on a valid database both filters return a subsequence of their input: nothing is added, repeated or reordered |
| Filters.DuplicateRowsRepeat | backend/api/filters.py:27 | without the unique constraint, a repeated row makes the join list a recipe twice |
| Images.ToInternalValue | backend/users/serializers.py:14-22 | a non-string, or a string not starting with `data:image`, is passed on unchanged, and only a `data:image` string becomes a file |
| Images.RecipeImage | backend/api/serializers.py:21-25 | the recipe image field refuses exactly the empty string and passes anything else on unchanged |
| Images.DataUrlDecoded | backend/users/serializers.py:16-20 | a `data:image` string with exactly one `;base64,` becomes the file `temp.<ext>`, where ext is the text after the header's last '/', and its payload is the text after the separator |
| Images.DataUrlRoundTrip | backend/users/serializers.py:16-20 | a data URL built from a type, an extension and a payload reads back as that extension and payload |
| Images.MissingSeparatorFails | backend/users/serializers.py:17 | a `data:image` string without `;base64,` fails the two-way unpacking |
| Images.RepeatedSeparatorFails | backend/users/serializers.py:17 | a `data:image` string with two `;base64,` separators fails the two-way unpacking |

## Left out

- The second tree `backend/foodgram/` (an older copy of the api and users apps) is not part of this model. Neither are the admin classes, URL routing, settings, pagination or the `fill_db` management command.
- The subscription serializer in `backend/api/serializers.py:275-296` is left out because the subscribe view does its own checks and never calls it. The api copy of `get_is_subscribed` (`backend/api/serializers.py:43-48`) is left out: it queries `user_subscribers` with an `author` lookup, names the subscription model does not have, which only has `follower` and `subscribed_to`. The api copy of `get_recipes` (`backend/api/serializers.py:64-81`) is left out because it differs from the users app's copy only in reading `recipes_limit` from the query string.
- md5 hashing, timestamps, `build_absolute_uri`, redirects and response bodies are left out as I/O and library concerns. The digest is an opaque string parameter, and replies are status codes. The 500 replies are modelled: the write is kept, and the body that fails to build is not.
- Base64 decoding and image validation by the parent `ImageField` are library code. The payload is kept as text, and the library base64 field behind the recipe `ImageField` is not modelled beyond the empty-string check.
- Usernames.ValidateUsername: `\w` is restricted to ASCII letters, digits and underscore, so Unicode word characters are left out.
- Text.ParseIntOfIntToString: `int()` and `str.strip` are modelled on ASCII white space (`\t` to `\r`, `\x1c` to `\x1f` and the space) and ASCII digits only. Unicode digits and white space such as `\x85` or `\xa0` are left out.
- RecipePayload.Validate: a payload is accepted with a blank or white-space-only `name` or `text`, a `name` longer than its `max_length`, image data that is not valid base64 or not an image, or a cooking time outside the 16-bit range of `PositiveSmallIntegerField`, all of which the source refuses with 400. The trimming and blank check of `CharField`, the length limit (whose value lives in the missing constants module) and the library's image decoding are not modelled, and only the configured cooking-time bounds are checked.
- RecipePayload.FieldProblems: for the same reasons it reports no problem for a blank or over-long `name`, a blank `text`, undecodable or non-image image data, or a cooking time outside the 16-bit range.
- The order of the recipe list (`-pub_date`) and of the shopping-list lines is not modelled. The lines follow the first appearance of each key in the joined rows, which stands in for the database's order.
- The tag-slug, author and ingredient-name search filters are left out because they are library filters.
- Unsubscribe: the check `if not user_to_unsubscribe` after `get_object_or_404` can never fire, so it has no branch in the model.
- MAX_LINK_LENGTH and the 16-bit range of `PositiveSmallIntegerField` are not modelled because their values live in the missing constants module. From the tenth retry on a short link grows longer than MAX_HASH_LENGTH (`ShortLinks.RetryLength`).
- RecipeWrite.CreateRecipe: an `Ok` result is the committed database, not a 201 reply. The response goes through `RecipeSerializer`, whose `author` field (`UserProfileSerializer`) and whose `is_favorited` and `is_in_shopping_cart` fields read `user_subscribers`, `favorite_set` and `shoppingcart_set`. The models define none of these names, so the reply is 500 (`RecipeWrite.ResponseStatus`) while the recipe stays stored. The response body is not modelled.
- RecipeWrite.UpdateRecipe: the same holds: an `Ok` result is the saved database, and the reply is 500 for the same missing names.
- RelationViews.Subscribe: the 201 branch of the view is never reached, since building its body raises. The model answers `ServerError` with the pair stored, and the response body is not modelled.
- RecipeWrite.UpdateRecipe: a PATCH passes the nested ingredient entries through partial validation, so an entry may lack `id` or `amount`. The model requires both keys of every entry and does not model what then happens. `update` is not atomic, unlike `create`, and the KeyError comes from `create_recipe_ingredients` after `instance.save()`, `tags.set` and the deletion of every ingredient row. Such a request answers 500 and leaves the tags replaced and the recipe without ingredient rows.
- RecipeWrite.UpdateRecipe: `update` saves twice, once before the tags and rows are replaced and once in the parent `update`. Only the first save can issue a link, so the model performs one save.
- Users.RegisterUser: the email's domain is lowercased on ASCII letters only, as `LowerChar` does, while Python's `str.lower` also lowers non-ASCII letters. The NFKC normalization of the username that `create_user` applies is left out. The email format check of `EmailField`, the `max_length` of both fields and the required first and last names are not modelled. The length limits live in the missing constants module, and the format check is the library's email validator. The djoser serializer's password handling is left out too.
- New recipe and user ids are parameters that must be unused, because the database assigns them.
- ShoppingList.GroupTotals: the summed amount of a row is its amount times its recipe's multiplicity in the cart join, which is 1 under the unique constraint (`ShoppingList.UniqueCartJoinsOnce`).
- Users.LimitWithinCount: `recipes_count` is the size of the author's recipe set (`Users.RecipesCount`). The lemma assumes the recipe list holds each of those recipes once, as the queryset does.

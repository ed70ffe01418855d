# MobileFrontend core, modelled in Dafny

This project models the decision logic of the MediaWiki MobileFrontend extension in three parts.

- **The server hooks** (`includes/MobileFrontend.hooks.php`). These decide which cookies the page cache varies on and when `!responsiveimages=0` is added to the parser-cache key. They decide when a thumbnail loses its `srcset`, which tags a recent change gets, and which X-Analytics items are logged. They also cover the mobile URLs purged with a page, the QUnit test module built from the registered modules and the canonical or alternate `<link>`. Finally, the tagline of a page and the redirect of a diff to Special:MobileDiff.
- **The section editor** (`javascripts/modules/edit.js`).
  - `EditApi` caches fetched sections and stages edited ones. It saves the staged sections one `action=edit` request at a time, after a token request.
  - `EditOverlay` moves between sections, keeps a change count and asks before closing with unsaved changes.
- **The page list** (`resources/mobile.pagelist/PageList.js`). `renderPageImages` gives each page a thumbnail class and a background style, then decorates the list items whose title matches a page.

Modules:

- `Wrappers`: `Option`.
- `Strings`: PHP's `explode`/`implode` on one character, `str_replace`.
- `MobileFrontendHooks`.
- `Edit`: the `EditApi` and `EditOverlay` classes.
- `PageList`.

State the source changes in place is modelled as state:

- The two JavaScript objects are classes whose fields the methods update.
- The `pages` list and the `li` list of `renderPageImages` are arrays, changed in place.
- Most hooks that change a PHP array passed by reference (`&$cookies`, `&$urls`, `&$attribs`, `&$testModules`) are methods that return the new array. The ones whose source loops keep those loops. `OnResourceLoaderTestModules` returns both the updated test-module registry and the module it registers.

Decisions the model makes about the source's semantics:

- **PHP values.** A PHP value that is either `false` or a string becomes `Value = False | Str(s)`. Examples are the results of `getProperty`, `getHeader` and `getMobileUrl`. PHP truthiness of a string is "neither `""` nor `"0"`".
- **Order of the staged sections.** `save()` collects the stage with `$.map` over an object keyed by section numbers. JavaScript lists integer keys in ascending order, so `sections.pop()` posts the highest section first. Section ids are therefore `nat`.
- **Stages that never settle.** `save()` on an empty stage throws inside the token callback. A staged section that was never fetched throws when it is popped. For the first section that is inside the token callback; for a later one it is inside the previous post's `done` callback (edit.js:72 calling back to :56). Either way the promise never settles, so the model gives `Pending`.
- **Replies supplied up front.** A token reply and the sequence of edit replies are given in advance. The model's `SaveSpec` states which requests are posted and how the promise settles.
- **Section responses.** A `getSection` miss returns the query it sends. Its response arriving later is a separate step (`ReceiveSection`, `EditOverlay.SectionArrived`), so responses can arrive late and out of order.
- **`renderPageImages` edge cases.**
  - jQuery's `attr('style', undefined)` returns the element without setting anything, so a page without a thumbnail and no earlier style leaves the style alone.
  - A list item without a title looks up the key `"undefined"`.
  - `addClass` appends only the names not already present.

## Model

| member | source | states |
|---|---|---|
| MobileFrontendHooks.GetProperty | includes/MobileFrontend.hooks.php:1114-1115 | a page property is a string exactly when it is set, and then it is the stored value; otherwise `false` |
| MobileFrontendHooks.FindTagline | includes/MobileFrontend.hooks.php:1113-1120 | the short description wins when set; the Wikibase fallback is called once, on the item id, exactly when there is no description, the item id is truthy and a fallback exists; otherwise the result is `false` |
| MobileFrontendHooks.FindTaglineCases | tests/phpunit/MobileFrontend.hooksTest.php:19-74 | the four unit-test cases: nothing set, description only, item only (fallback answers), both set |
| MobileFrontendHooks.OnGetCacheVaryCookies | includes/MobileFrontend.hooks.php:379-396 | the old cookies are kept as a prefix; after them come useformat and stopMobileRedirect, then the opt-in cookie exactly when in mobile view or there is no mobile URL template, then forceHTTPS |
| MobileFrontendHooks.PageRenderingHash | includes/MobileFrontend.hooks.php:413-417 | the key only grows, it changes exactly when responsive images are stripped, and then by the suffix `!responsiveimages=0` |
| MobileFrontendHooks.PageRenderingHashCases | tests/phpunit/MobileFrontend.hooksTest.php:275-301 | both unit-test cases on an empty key |
| MobileFrontendHooks.StripsSrcset | includes/MobileFrontend.hooks.php:1186-1189 | the strip condition: stripping is on, and there is no file or its MIME type is not whitelisted; its consequences are stated by `OnThumbnailBeforeProduceHTML` and `ThumbnailSrcsetCases` |
| MobileFrontendHooks.OnThumbnailBeforeProduceHTML | includes/MobileFrontend.hooks.php:1183-1199 | `srcset` survives exactly when it was there and stripping is off, or the file exists with a whitelisted MIME type; every other attribute is kept with its value |
| MobileFrontendHooks.ThumbnailSrcsetCases | tests/phpunit/MobileFrontend.hooksTest.php:307-372 | the unit-test table: with SVG whitelisted and JPEG not, a JPEG or missing file loses `srcset`, an SVG keeps it, nothing is removed with stripping off |
| MobileFrontendHooks.MobileEditTags | includes/MobileFrontend.hooks.php:550-563 | "mobile edit" exactly for edits and uploads in mobile view; "mobile web edit" exactly for those whose user agent does not start with `WikipediaApp/`; at most those two, "mobile edit" first |
| MobileFrontendHooks.LogXAnalyticsItems | includes/MobileFrontend.hooks.php:78-112 | nothing is logged outside mobile view, on a blacklisted page or without a truthy header; otherwise the items are the `;`-separated pieces, which join back to the header, and when there are several none contains `;` |
| MobileFrontendHooks.MobileVariants | includes/MobileFrontend.hooks.php:1275-1280 | no more variants than URLs |
| MobileFrontendHooks.OnTitleSquidURLs | includes/MobileFrontend.hooks.php:1273-1281 | the new list is the old list followed by the mobile variants of the old entries, in order |
| MobileFrontendHooks.MobileVariantsAppend | includes/MobileFrontend.hooks.php:1275-1280 | variants of a concatenation are the concatenation of the variants |
| MobileFrontendHooks.MobileVariantsMembership | includes/MobileFrontend.hooks.php:1276-1278 | a URL is added exactly when it is the mobile URL of some listed URL, is not `false` and differs from that URL |
| MobileFrontendHooks.SquidUrlsExample | tests/phpunit/MobileFrontend.hooksTest.php:249-269 | the purge test: the page and history URLs are followed by their `.m.` translations |
| MobileFrontendHooks.StripTrailingSlashes | includes/MobileFrontend.hooks.php:330 | `dirname` helper: removes exactly the trailing `/` characters, leaving a prefix that does not end in `/` |
| MobileFrontendHooks.StripTrailingName | includes/MobileFrontend.hooks.php:330 | `dirname` helper: cuts to just after the last `/`, removing only non-`/` characters |
| MobileFrontendHooks.Dirname | includes/MobileFrontend.hooks.php:330 | PHP `dirname` on a script path; `DirnameBasename` states what it gives |
| MobileFrontendHooks.Basename | includes/MobileFrontend.hooks.php:330 | PHP `basename` on a script path; `DirnameBasename` states what it gives |
| MobileFrontendHooks.DirnameBasename | includes/MobileFrontend.hooks.php:330 | for a path `d/b` with a plain file name `b`, `dirname` gives `d` and `basename` gives `b` |
| MobileFrontendHooks.RawTestFilePathOf | includes/MobileFrontend.hooks.php:330 | the test file of `dir/b` is `tests/dir/test_b` |
| Strings.ReplaceAll | includes/MobileFrontend.hooks.php:332 | `str_replace` with a non-empty search string, left to right without overlaps; `ReplaceAllLeading` and `ReplaceAllAbsent` state its behaviour |
| Strings.ReplaceAllAbsent | includes/MobileFrontend.hooks.php:332 | a path without the search string is left as it is |
| Strings.ReplaceAllLeading | includes/MobileFrontend.hooks.php:332 | a leading occurrence of the pattern is replaced and the rest is rewritten the same way |
| MobileFrontendHooks.QunitPathLeading | includes/MobileFrontend.hooks.php:332 | a path under `tests/resources/` is moved to `tests/qunit/` |
| MobileFrontendHooks.TestFilePath | includes/MobileFrontend.hooks.php:330-332 | a script's candidate test file; `ResourcesTestFilePath` and `PlainTestFilePath` state its value |
| MobileFrontendHooks.PlainTestFilePath | includes/MobileFrontend.hooks.php:330-332 | a script outside `resources/` keeps its `tests/<d>/test_<b>` path when that path holds no `tests/resources/` |
| MobileFrontendHooks.ResourcesTestFilePath | includes/MobileFrontend.hooks.php:330-332 | the test file of `resources/d/b` lies under `tests/qunit/d/test_b` |
| MobileFrontendHooks.ScriptTests | includes/MobileFrontend.hooks.php:329-338 | the inner loop collects exactly the existing test files of the scripts in order, and `hasTests` is set exactly when one was found |
| MobileFrontendHooks.CollectTests | includes/MobileFrontend.hooks.php:326-345 | the outer loop's dependencies and test files are those of the module list, in registration order |
| MobileFrontendHooks.OnResourceLoaderTestModules | includes/MobileFrontend.hooks.php:316-368 | the test module has those dependencies and scripts, the fixed templates, the base path, the remote path and both targets; it is registered as `tests.mobilefrontend` under `qunit`, with the other `qunit` modules and every other group kept |
| MobileFrontendHooks.ExistingTestFilesMembership | includes/MobileFrontend.hooks.php:334-337 | every script whose test file exists contributes it |
| MobileFrontendHooks.ExistingTestFilesSound | includes/MobileFrontend.hooks.php:334-337 | every collected file is the existing test file of some script |
| MobileFrontendHooks.ExistingTestFilesNonEmpty | includes/MobileFrontend.hooks.php:334-343 | a module has test files exactly when some script's test file exists |
| MobileFrontendHooks.TestDependenciesMembership | includes/MobileFrontend.hooks.php:326-345 | a key is a dependency exactly when some module with that key is a `mobile.` module with scripts and an existing test file |
| MobileFrontendHooks.CanonicalOrAlternateLinks | includes/MobileFrontend.hooks.php:737-760 | at most one link, present exactly with a template and noindex pages, except on Special:MobileCite in mobile view; on desktop an alternate link to the mobile URL for tablet widths; in mobile view the canonical desktop URL |
| MobileFrontendHooks.VaryOnUserAgent | includes/MobileFrontend.hooks.php:765-771 | `Vary: User-Agent` exactly when varying on the user agent and auto-detection are on and no mobile URL template is set |
| MobileFrontendHooks.VaryExcludesLinks | includes/MobileFrontend.hooks.php:737-771 | a page that gets `Vary: User-Agent` gets no canonical or alternate link; the MobileContext template and the `MobileUrlTemplate` setting are taken as one value |
| MobileFrontendHooks.BeforePageDisplayTable | tests/phpunit/MobileFrontend.hooksTest.php:103-160 | every row of the data provider: the number and kind of links in both views and whether `Vary: User-Agent` is sent |
| MobileFrontendHooks.MobileCiteHasNoLink | tests/phpunit/MobileFrontend.hooksTest.php:81-96 | Special:MobileCite in mobile view gets no link |
| MobileFrontendHooks.MobileDiffRedirect | includes/MobileFrontend.hooks.php:277-305 | a redirect, always to the new revision, exactly in mobile view off special pages when there is no old revision or the old one is the new one's predecessor |
| Strings.JoinSplit | includes/MobileFrontend.hooks.php:104 | joining the `explode` pieces gives back the header |
| Strings.Split | includes/MobileFrontend.hooks.php:104 | `explode` on one character: at least one piece, none containing the separator |
| Strings.Join | includes/MobileFrontend.hooks.php:104 | `implode` on one character; `JoinSplit` and `SplitJoin` make it the inverse of `Split` |
| Strings.SplitJoin | includes/MobileFrontend.hooks.php:104 | `explode` of a join of separator-free pieces gives the pieces |
| Strings.SplitCount | includes/MobileFrontend.hooks.php:104-105 | `explode` gives one more piece than there are separators |
| Edit.SortedKeys | javascripts/modules/edit.js:51-53 | the integer keys of the stage in ascending order, each once |
| Edit.StagedInOrder | javascripts/modules/edit.js:51-53 | one entry per staged section |
| Edit.StagedInOrderValues | javascripts/modules/edit.js:51-53 | the list holds exactly the staged sections |
| Edit.StagedInOrderAscending | javascripts/modules/edit.js:51-53 | the list is in strictly ascending section order |
| Edit.PostFrom | javascripts/modules/edit.js:55-75 | the `saveSection` chain: which requests are posted and how it settles; stated by `PostFromPosts`, `PostFromOutcome`, `PostFromProgress` and `PostFromResolves` |
| Edit.SaveSpec | javascripts/modules/edit.js:49-80 | the whole save, token request first; stated by `SaveResolves`, `SaveRejects`, `SaveProgress` and `SavePostsDescending` |
| Edit.PostFromPosts | javascripts/modules/edit.js:55-75 | the posted requests are the staged sections from the last one backwards, each with its cached timestamp as base and start timestamp; at most one more post than replies; every reply before the last post was a success |
| Edit.PostFromOutcome | javascripts/modules/edit.js:66-74 | a settled save has posted; a resolved one posted every section and the last reply succeeded; it rejects exactly when the reply to its last post is an error, and then with that error code or "HTTP error" |
| Edit.PostFromProgress | javascripts/modules/edit.js:55-75 | the chain goes on after each successful reply: an unsettled run has used every reply and waits on its last post, or the next section to pop was never fetched |
| Edit.PostFromResolves | javascripts/modules/edit.js:55-75 | the chain resolves exactly when every section is cached and each of them gets a successful reply |
| Edit.SaveResolves | javascripts/modules/edit.js:49-80 | a save resolves exactly when a token arrived, the stage is non-empty, every staged section was fetched and each post succeeds |
| Edit.SaveRejects | javascripts/modules/edit.js:66-79 | a failed token request rejects with its reason and posts nothing; otherwise the save rejects exactly when the reply to its last post is an error, with that reply's reason |
| Edit.SaveProgress | javascripts/modules/edit.js:49-80 | with a token and a non-empty stage, an unsettled save waits on its last post or has reached a section that was never fetched; with nothing staged it never settles and posts nothing |
| Edit.SavePostsDescending | javascripts/modules/edit.js:51-56 | sections are posted in strictly descending order |
| Edit.EditApi.constructor | javascripts/modules/edit.js:8-13 | empty cache and stage for the given page |
| Edit.EditApi.GetSection | javascripts/modules/edit.js:15-40 | a cached section resolves with the cache entry and sends nothing; otherwise the query for this page and section is sent and the result waits |
| Edit.EditApi.ReceiveSection | javascripts/modules/edit.js:27-35 | the response is cached under its id with its timestamp and content; nothing else changes |
| Edit.EditApi.StageSection | javascripts/modules/edit.js:42-47 | the stage entry for the id is replaced; the cache is unchanged |
| Edit.EditApi.Save | javascripts/modules/edit.js:49-80 | the posted requests and the outcome are those of the save specification, over the stage and cache at the time of the call |
| Edit.StaleResponsePassesGuard | javascripts/modules/edit.js:149-155 | a response for a section other than the current one passes the guard as written, and fails the corrected one |
| Edit.EditOverlay.constructor | javascripts/modules/edit.js:96-131 | no changes, a fresh API for the page, the start section loading and its fetch outstanding |
| Edit.EditOverlay.LoadSection | javascripts/modules/edit.js:139-156 | the section is current, prev is disabled exactly at 0 and next exactly at the last section; a cached section is shown at once, otherwise the loading indicator shows and a fetch is outstanding |
| Edit.EditOverlay.ClickPrev | javascripts/modules/edit.js:115-119 | on the first section the disabled button changes nothing; otherwise the previous section is loaded |
| Edit.EditOverlay.ClickNext | javascripts/modules/edit.js:120-123 | on the last section the disabled button changes nothing; otherwise the next section is loaded |
| Edit.EditOverlay.Change | javascripts/modules/edit.js:105-108 | the change count goes up by one and the text is staged for the current section; the section, the pending fetches, what is shown and whether the overlay is closed do not change |
| Edit.EditOverlay.Hide | javascripts/modules/edit.js:133-137 | the user is asked exactly when there are changes; the overlay closes when there are none or the user confirms |
| Edit.EditOverlay.SectionArrived | javascripts/modules/edit.js:149-155 | corrected guard: the response is cached; it replaces the text and shows it exactly when it is for the current section; the section, the count and whether the overlay is closed do not change |
| Edit.EditOverlay.SectionArrivedAsWritten | javascripts/modules/edit.js:149-155 | guard as written: the response is cached, and it replaces the text and shows it whatever section is current; the section, the count and whether the overlay is closed do not change |
| Edit.StaleResponseScenario | javascripts/modules/edit.js:139-156 | two quick clicks on next, then late responses: section 1's text ends up in the editor while section 2 is current, and the next change stages it as section 2 |
| PageList.NonEmpty | resources/mobile.pagelist/PageList.js:68 | keeps exactly the non-empty class names |
| PageList.Words | resources/mobile.pagelist/PageList.js:68 | the class names of a class string are non-empty and contain no space |
| PageList.WordsOfJoin | resources/mobile.pagelist/PageList.js:56 | splitting a space-joined list of names gives the names back |
| PageList.AddNames | resources/mobile.pagelist/PageList.js:68 | existing classes stay first and in order; the result holds exactly the old and the added names |
| PageList.AddNamesDistinct | resources/mobile.pagelist/PageList.js:68 | adding classes never creates a duplicate |
| PageList.Decorate | resources/mobile.pagelist/PageList.js:50-57 | every page gets a class; a page with a thumbnail gets the background-image style of its source; the title and thumbnail are kept |
| PageList.DecoratedClasses | resources/mobile.pagelist/PageList.js:51-56 | `list-thumb-y` exactly for a landscape thumbnail, `list-thumb-x` exactly otherwise, `list-thumb-none` exactly without a thumbnail |
| PageList.TitleMap | resources/mobile.pagelist/PageList.js:58 | the `pages` object keyed by title; `TitleMapKeys` and `TitleMapLaterWins` state its contents |
| PageList.TitleMapKeys | resources/mobile.pagelist/PageList.js:58 | the map has exactly the titles of the pages, a missing title as `"undefined"` |
| PageList.TitleMapLaterWins | resources/mobile.pagelist/PageList.js:58 | under a repeated title the last page wins |
| PageList.DecorateItem | resources/mobile.pagelist/PageList.js:62-71 | an item keeps its title and thumbnail elements |
| PageList.DecorateThumb | resources/mobile.pagelist/PageList.js:68-69 | one `.list-thumb` element gets the page's classes and style; `ItemDecoration` states the result |
| PageList.ItemDecoration | resources/mobile.pagelist/PageList.js:62-71 | an item whose title is not a page is unchanged; otherwise each thumbnail keeps its classes and gains the page's, and takes the page's style when it has one |
| PageList.DecoratePages | resources/mobile.pagelist/PageList.js:49-59 | every page in the array is decorated in place, and the title map is built from the decorated pages |
| PageList.DecorateItems | resources/mobile.pagelist/PageList.js:62-71 | every list item in the array is decorated from the map in place |
| PageList.RenderPageImages | resources/mobile.pagelist/PageList.js:41-74 | with images disabled nothing changes; otherwise every page is decorated and every item is decorated from the title map of the decorated pages |

## Left out

- The MobileContext singleton is not part of this model. Whether the mobile view is shown, whether the page is blacklisted, the mobile URL template, `getMobileUrl`, `shouldStripResponsiveImages` and the configuration values are parameters.
- The opt-in cookie's name is defined in MobileContext, which is not part of this model, so it is a parameter of `OnGetCacheVaryCookies`.
- `onRequestContextCreateSkin` beyond its early return and the X-Analytics handling is left out: the features manager, the MediaWiki UI, the ULS global and building the skin are framework calls.
- What `addAnalyticsLogItemFromXAnalytics` does with one item is internal to MobileContext; the model returns the items it is given.
- `file_exists` is a parameter predicate, and `$wgResourceModules` is a sequence of keys and optional script lists. The model does not require its keys to be distinct.
- A module whose `scripts` is set to a string rather than an array passes the `isset` test but gets no tests from the `foreach`. The model's scripts are an optional list, so it cannot express that case.
- `dirname` and `basename` are modelled for the forward-slash paths of module scripts; Windows separators, drive letters and locale effects are not.
- `in_array` is modelled as strict membership. Its loose comparison does not matter for MIME-type strings.
- The other hooks of the file (`onBeforePageDisplay` beyond its link and Vary decisions, preferences, login forms, special pages, config variables, module registration) are outside the modelled core.
- Edit.EditApi.Save: the stage and cache are read when the save starts; an edit staged or a section fetched while the posts are in flight is not seen.
- Edit.EditApi.Save: an error object without `code` rejects with `undefined` in the source; the model's reply carries the code as an `Option`, so that case appears as a success.
- Edit.EditApi.GetSection: a failed or malformed query response is not modelled; the source ignores failures ("possible failures?"), so the result stays pending, which is what the model shows.
- Non-integer section keys and properties inherited through the prototype are not modelled.
- Deferreds, timers and `window.confirm` are not modelled as such: replies, responses and the user's answer are parameters or separate method calls.
- The save and confirm bars, the enabling of the save buttons on key presses, the change-count message and showing or hiding of DOM elements other than content and loading are left out.
- The edit-button bootstrap at javascripts/modules/edit.js:159-177 and the module exports are page wiring, not part of the model.
- `renderPageImages` runs after a timer delay that depends on the screen width; the delay is left out and the decoration is modelled as one step.
- PageList.AddNames: jQuery also normalises the whitespace of the resulting `className`; the model keeps the class list as a sequence of names.
- The `li` elements of the list are given as an array rather than found by a DOM query.
- `mf-navigation.js` and `WatchList.js` are context and are not modelled.

## Findings

| source | as written | input that shows it | evidently intended | confidence | as-written member | corrected member |
|---|---|---|---|---|---|---|
| javascripts/modules/edit.js:151 | the guard compares the loaded entry's section with the section that callback itself requested, which the cache entry always matches, so a late response always replaces the text | overlay on section 0 of 3, next clicked twice, section 2's response arrives and then section 1's: section 1's text is shown while section 2 is current, and the next change stages it as section 2 | compare with the overlay's current section (`self.section`), as the comment "prevent delayed response overriding content" says | not executed | Edit.EditOverlay.SectionArrivedAsWritten, Edit.StaleResponsePassesGuard, Edit.StaleResponseScenario | Edit.EditOverlay.SectionArrived |

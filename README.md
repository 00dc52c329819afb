# gatsby-source-woocommerce helpers, modelled in Dafny

This project models `helpers/index.js` of the WooCommerce source plugin for Gatsby. The helpers
reshape records fetched from the WooCommerce REST API into Gatsby graph nodes:

- `normaliseFieldName` and `capitalize` turn a slash-separated endpoint such as
  `products/categories` into a camelCase field name (`productsCategories`); `FieldNames` models
  them as functions over strings, with the `reduce` callback as `Step` and the split as `Split`.
- `processNode` deletes the `fieldName` tag from a raw record and wraps what is left into a node
  envelope (`id`, `wordpress_id`, `parent`, `children`, `internal`). `NodeWrapper` models the
  record as an object whose key map the method updates, and the envelope as the function `Wrap`.
- `mapProductsToCategories` links every product node to the category nodes it references and
  every category back to its products, by pushing onto lists held by the shared node objects.
  `Linker` models the nodes as objects (`Graph.Node`) and the nested loops as methods, proved
  against recursive functions (`Connect`, `BackLinks`) that say what every list ends up holding.
- `downloadMedia` attaches a local file node to an image, reusing the file recorded in the cache
  under `wordpress-media-<image id>` while the node's `modified` stamp is unchanged and fetching
  the file otherwise; `mapMediaToNodes` does that for every image of every node. `Media` models
  the host (cache, `touchNode`, the remote-file fetcher) as an object that records what was
  asked of it, the outcome of every fetch as a parameter, and proves the method against the
  function `Resolve` and its batch counterpart `RunJobs`.

`Js` holds the JavaScript semantics the helpers rely on: values, truthiness, `String(v)` as
used by template literals, `Number#toString` for integers, ASCII `toUpperCase`, and calls that
throw (`Result.TypeError`).

The behaviour modelled is the code's:

- `normaliseFieldName` keeps the first segment exactly as it is (nothing is lower-cased), and it
  throws when an empty segment follows non-empty text (`"a//b"`, `"a/"`), because the `reduce`
  callback (line 62) calls `toUpperCase` on `partial[0]`, which is `undefined` for an empty
  segment; leading empty segments are harmless (`"/a/b"` gives `"aB"`).
- In `downloadMedia` the `cache.set` call (line 98) sits inside the `try` that guards the
  fetch, after `fileNodeID` was taken from the file node: if writing the cache record fails,
  the error is swallowed and the image is still linked (line 108), with no cache entry. The
  fetch outcome `FetchedNotCached` models that path.
- The media cache key is `wordpress-media-` followed by the image id.
- A `null` or missing `fileNodeID` is falsy exactly like an empty one; both are `""` here.

## Model

| member | source | states |
|---|---|---|
| `FieldNames.Capitalize` | helpers/index.js:162-164 | succeeds exactly on a non-empty string; the result differs from the input only in its first character, which is upper-cased |
| `FieldNames.CapitalizeIdempotent` | helpers/index.js:162-164 | capitalising a capitalised string changes nothing |
| `FieldNames.Split` | helpers/index.js:57 | `split("/")` always yields at least one segment |
| `FieldNames.JoinSplit` | helpers/index.js:57 | joining the segments with "/" gives back the name, and no segment contains a slash |
| `FieldNames.SplitJoin` | helpers/index.js:57 | splitting the join of slash-free segments gives back exactly those segments |
| `FieldNames.ConcatSplit` | helpers/index.js:57 | the segments, concatenated, are the name with its slashes removed |
| `FieldNames.Step` | helpers/index.js:58-63 | one step of the `reduce` callback throws exactly when the accumulator is non-empty and the segment empty |
| `FieldNames.Reduce` | helpers/index.js:58-63 | `parts.reduce(callback, "")`: the steps applied left to right from "", the first throwing step aborting it (definition; its properties are `ReduceLetters`, `ReduceFailsIff` and `ReduceEmptyPrefix`) |
| `FieldNames.ReduceEmptyPrefix` | helpers/index.js:58-63 | leading empty segments leave the accumulator at "" and do not change the reduction |
| `FieldNames.ReduceLetters` | helpers/index.js:58-63 | a successful reduction is the concatenation of the segments with some characters upper-cased, and is empty exactly when they all are |
| `FieldNames.ReduceFailsIff` | helpers/index.js:58-63 | the reduction throws if and only if some segment after the first is empty while the text before it is not |
| `FieldNames.NormaliseFieldName` | helpers/index.js:56-64 | the reduction of the segments; a result has exactly as many characters as the name without its slashes |
| `FieldNames.NormaliseKeepsLetters` | helpers/index.js:56-64 | a normalised name is the input without its slashes, some characters upper-cased |
| `FieldNames.NormaliseFailsIff` | helpers/index.js:56-64 | `normaliseFieldName` throws if and only if the name has an empty segment after non-empty text |
| `FieldNames.NormaliseSingleSegment` | helpers/index.js:56-64 | a name without a slash (the empty name included) is returned unchanged |
| `FieldNames.NormaliseCamelCase` | helpers/index.js:54-64 | after any number of leading empty segments, for non-empty slash-free segments the result is the first of them followed by each later one with its first character upper-cased |
| `FieldNames.ProductsCategories` | helpers/index.js:54-55 | "products/categories" becomes "productsCategories" |
| `FieldNames.LeadingSlashDropped` | helpers/index.js:56-64 | "/products/categories" also becomes "productsCategories" |
| `FieldNames.DoubleSlashThrows` | helpers/index.js:56-64 | "a//b" makes `normaliseFieldName` throw |
| `NodeWrapper.NodeSeed` | helpers/index.js:9 | the seed `woocommerce-<fieldName>-<id>` handed to the node-id generator (definition; `NodeSeedInjective` is its property) |
| `NodeWrapper.NodeType` | helpers/index.js:14 | the node type is "wc" followed by the capitalised field name, and exists exactly when the field name is a non-empty string |
| `NodeWrapper.Wrap` | helpers/index.js:3-21 | the node exists exactly when `fieldName` is a non-empty string; its keys are the record's minus `fieldName` plus the five envelope keys, and every other key keeps the record's value |
| `NodeWrapper.ProcessNode` | helpers/index.js:3-21 | deletes `fieldName` from the record it is given and returns the node `Wrap` describes for the record as it was |
| `NodeWrapper.WrapEnvelope` | helpers/index.js:8-18 | the envelope: id generated from `woocommerce-<fieldName>-<id>`, `wordpress_id` the source id, no parent, no children, the type, and the serialised record with its digest |
| `NodeWrapper.WrapStripsFieldName` | helpers/index.js:4-6 | neither the node nor its serialised content carries `fieldName` |
| `NodeWrapper.ProcessingTwiceThrows` | helpers/index.js:4-5 | once `fieldName` is deleted the same record cannot be processed again |
| `NodeWrapper.NodeSeedInjective` | helpers/index.js:9 | for field names without '-', distinct (field name, numeric id) pairs give distinct node-id seeds |
| `Linker.Categories` | helpers/index.js:25-27 | the categories are exactly the nodes of type `wcProductsCategories`; a single node is kept exactly when it is one |
| `Linker.CategoriesAppend` | helpers/index.js:25-27 | the filter keeps order and multiplicity: the categories of `a + b` are those of `a` followed by those of `b` |
| `Linker.Linked` | helpers/index.js:30 | a node is linked exactly when there is some category and its type is `wcProducts` (definition) |
| `Linker.FindCategory` | helpers/index.js:32 | a category found has the referenced source id and is one of the categories |
| `Linker.FindCategoryFirst` | helpers/index.js:32 | the category found is the first one with that source id |
| `Linker.FindCategoryNone` | helpers/index.js:32-33 | no category is found if and only if none has that source id |
| `Linker.AppendLinks` | helpers/index.js:41-46 | after the pushes a list exists exactly when one existed or something was pushed; an existing list is kept as a prefix and the pushed ids follow it, in order |
| `Linker.AppendLinksCompose` | helpers/index.js:41-46 | pushing `a` and then `b` is pushing `a + b`, so pushes one at a time add up to the whole list |
| `Linker.RefBackLinks` | helpers/index.js:41-46 | a product pushes only its own id onto a category, at most once per reference |
| `Linker.Connect` | helpers/index.js:34-39 | the as-written connection after a product's references: each match re-creates the list with the matched category alone (definition; its properties are the `Connect…` lemmas) |
| `Linker.ConnectionAfter` | helpers/index.js:30-39 | a linked product's connection is `Connect` of its references; any other node keeps its own (definition; used by `MapProductsToCategories`' contract) |
| `Linker.IntendedConnect` | helpers/index.js:34-39 | the connection with the test on line 34 spelled as the writes on lines 36 and 39: created once, every match pushed (definition; its property is `IntendedConnectLinksAll`) |
| `Linker.BackLinks` | helpers/index.js:29-47 | everything the linked products, in node order, push onto a category (definition; characterised in both directions by `BackLinksRecordEveryMatch` and `BackLinksSound`) |
| `Linker.MapProductsToCategories` | helpers/index.js:24-52 | returns the same nodes; every node's connection and back-link list end up as `ConnectionAfter` and `BackLinks` say |
| `Linker.LinkNode` | helpers/index.js:29-50 | after node `i`, the nodes up to `i` are linked and the rest keep their connections; every category's back-links have grown by what node `i` pushes |
| `Linker.LinkProduct` | helpers/index.js:31-48 | the product's connection is `Connect` of its references; each category's back-links grow by the product's id once per reference that finds it; nothing else changes |
| `Linker.LinkReference` | helpers/index.js:32-47 | one reference: a found category is connected and gets the product's id pushed; an unknown reference changes nothing |
| `Linker.ConnectIdempotent` | helpers/index.js:34-39 | processing a product's references a second time leaves its connection as it is |
| `Linker.ConnectKeepsLastMatch` | helpers/index.js:34-39 | as written, a product ends up connected only to the category of its last matching reference |
| `Linker.ConnectWithoutMatch` | helpers/index.js:32-33 | references that match no category leave the connection untouched |
| `Linker.TwoMatchesKeepOnlyLast` | helpers/index.js:34-39 | a product referencing existing categories 10 and 20 is connected to 20 only, where the intended code connects it to both |
| `Linker.IntendedConnectLinksAll` | helpers/index.js:34-39 | with the intended test, the connection is the initial list followed by every matched category, in reference order |
| `Linker.MatchedIdsComplete` | helpers/index.js:31-39 | every matching reference contributes its category's node id |
| `Linker.BackLinksOnlyToCategories` | helpers/index.js:29-47 | only category nodes receive back-links |
| `Linker.BackLinksRecordEveryMatch` | helpers/index.js:41-46 | every linked product that references a category appears in that category's back-links |
| `Linker.RefBackLinksSound` | helpers/index.js:32-46 | a product pushes onto a category only for a reference whose first match is that category; references that do not find it push nothing onto it |
| `Linker.BackLinksSound` | helpers/index.js:29-47 | every id on a category's `products___NODE` is that of a linked product with a reference that finds the category |
| `Linker.RelinkingDuplicatesBackLinks` | helpers/index.js:24-52 | linking is not idempotent: when a linked product references category `c`, a second run over the same nodes appends all of `c`'s back-links again, that product's id among them |
| `Linker.OneProductTwoCategories` | helpers/index.js:24-52 | categories 10 and 20 and a product referencing 10: the product is connected to 10, which gets one back-link, and 20 gets none |
| `Media.MediaCacheKey` | helpers/index.js:76 | the key `wordpress-media-<image id>` (definition) |
| `Media.Warm` | helpers/index.js:79 | an entry under the node's `modified` stamp naming a file: the case in which nothing is fetched (definition) |
| `Media.MediaCacheKeyInjective` | helpers/index.js:76 | distinct numeric media ids have distinct cache keys |
| `Media.Resolve` | helpers/index.js:75-109 | only the image's own cache entry can change; a file that is linked is recorded under the node's stamp unless writing the record failed; at most one fetch, for the image's URL and the node's id; at most one touch, of the id the entry names |
| `Media.DownloadMedia` | helpers/index.js:66-110 | the host ends as `Resolve` says, and the image is linked to the file found, or keeps its link when there is none |
| `Media.ResolveHit` | helpers/index.js:79-82 | a usable entry under the node's stamp is linked and touched; nothing is fetched and the cache is unchanged |
| `Media.ResolveMiss` | helpers/index.js:75-109 | otherwise the file is fetched once for the node; a same-stamp entry naming no file is touched with "", an absent or stale one is not; a fetch that yields a file links it and records it unless the write fails; a failed or empty fetch changes neither cache nor link |
| `Media.UncachedLinkRefetched` | helpers/index.js:94-104 | a file whose cache record could not be written is linked, the cache is unchanged, and the next run fetches again |
| `Media.StaleEntryRefetched` | helpers/index.js:79-86 | an entry under another stamp is not touched and the file is fetched again |
| `Media.RefetchAvoided` | helpers/index.js:79-101 | once a fetch yielded a file, the next run for the same node and image links it again without fetching |
| `Media.CachedImageScenario` | helpers/index.js:76-82 | media item 5 cached as "F1" under the node's stamp: "F1" is linked and touched once, nothing is fetched |
| `Media.ChangedStampScenario` | helpers/index.js:79-101 | the same entry with a newer node stamp: the file is fetched and recorded under the new stamp |
| `Media.Selected` | helpers/index.js:131-149 | the downloads of the callback for one node, all for that node: its images when it has any, else its single image with a truthy id, else none |
| `Media.ImageJobs` | helpers/index.js:132-137 | one download per image of the list, in list order, each for the node (definition; `ImageJobsAt` indexes it) |
| `Media.Jobs` | helpers/index.js:121-150 | the downloads for all nodes, node after node (definition; its properties are `JobsSound` and `JobsComplete`) |
| `Media.JobsSound` | helpers/index.js:131-149 | every download is for an image of a node of the batch, or for its single image when it has no image list and the image id is truthy |
| `Media.JobsComplete` | helpers/index.js:131-149 | every image of every node is downloaded, and so is the single image of a node without images when its id is truthy |
| `Media.Next` | helpers/index.js:66-110 | one download of the batch, the fetcher answering with its outcome for the next fetch (definition) |
| `Media.RunJobs` | helpers/index.js:121-150 | the host state after the batch's downloads ran one after the other (definition; used by `MapMediaToNodes`' contract) |
| `Media.LinkAfter` | helpers/index.js:107-109 | an image's `localFile___NODE` after the batch: the last file linked to it, else its old link (definition; used by `MapMediaToNodes`' contract) |
| `Media.RunJobsFetchBound` | helpers/index.js:84-93 | a batch asks for at most one fetch per download and never forgets earlier ones |
| `Media.RunJobsKeepsEntries` | helpers/index.js:98-101 | cache entries are written, never deleted |
| `Media.WarmRunFetchesNothing` | helpers/index.js:79-93 | when the cache holds a usable file for every download, a batch fetches nothing and leaves the cache unchanged |
| `Media.LinkAfterUntouched` | helpers/index.js:107-109 | an image no download is for keeps its link |
| `Media.RunJob` | helpers/index.js:133-144 | one `downloadMedia` call advances the host and the images' links by one download |
| `Media.MapNode` | helpers/index.js:121-149 | the per-node callback runs the node's downloads, in order, after those already done |
| `Media.MapMediaToNodes` | helpers/index.js:112-152 | returns the same nodes; the host ends as `RunJobs` of all the downloads and every image holds the link `LinkAfter` gives |

## Left out

- Concurrency: the downloads of `mapMediaToNodes` run one after the other in list order. In the code they overlap; the image-list downloads (lines 132-137) are not even awaited, so the promise can settle before they finish. Interleaved `cache.get`/`cache.set` calls are not modelled.
- The remote-file fetcher is modelled only by its outcome: a file node id (with the cache record written, or with the write failing), a falsy result, or a swallowed error. The `k`-th fetch of a batch has the outcome `oracle(k)`. Its store, its own cache, and the nodes it creates are not modelled.
- A failing `cache.get` (line 77, outside the `try`) is not modelled. It rejects `downloadMedia`; that reaches `mapMediaToNodes` only for a node's single image (lines 141-144), since the image-list downloads (lines 132-137) are dropped promises.
- `JSON.stringify`, `createNodeId` and `createContentDigest` are function parameters. Their output is not modelled.
- Numbers are integers. Floating-point ids and their printing are not modelled.
- `toUpperCase` is modelled for ASCII letters only. Other characters are left unchanged.
- NodeWrapper.NodeType, NodeWrapper.Wrap, NodeWrapper.ProcessNode: only a non-empty string field name succeeds. In JavaScript, an array whose first element is a string would also get through `capitalize`.
- `Linker`: a product without a `categories` list, and references whose `id` is not an integer, are not modelled. In the code the first throws.
- `Linker`: a record that already carries the misspelled key `categories_conection___NODE` is not modelled. No WooCommerce record has it.
- `Media`: a missing or `null` image list reads as empty. A `modified` stamp is a string or missing, and only those values are compared.
- `n.id.toString()` is the node id itself, since node ids are strings.
- `touchNode`, `store`, `createNode` and `createNodeId`, as passed through to the fetcher, are recorded only as the touched ids and the fetch requests.

## Findings

| source | as written | input that shows it | evidently intended | confidence | as-written member | corrected member |
|---|---|---|---|---|---|---|
| helpers/index.js:34 | tests `categories_conection___NODE`, a key never set, so the connection list is re-created before every push and only the last matching category survives | a product whose `categories` reference existing categories 10 and 20 is connected to category 20 only | test `categories_connection___NODE`, so the list is created once and the product is connected to every referenced category | high; not executed | `Linker.TwoMatchesKeepOnlyLast` | `Linker.IntendedConnectLinksAll` |

# WooCommerce product importer, modelled in Dafny

`WooCommerce_Product_Importer` is a WordPress helper class that imports products into a
WooCommerce shop. This project models these parts of it:

- the recursive argument merge `parse_args_r`;
- `add_product`: it completes the product arguments with defaults, refuses a missing SKU,
  inserts or updates the product post, derives `_stock_status` and `_price`, writes the
  metas, the tags and the type, then attaches the images and the categories;
- `add_image_to_product`, `add_product_to_category` and `add_category`;
- the SKU lookup `product_exist`, the relations `associate_upsell_sku` and
  `associate_crosssell_sku`, and `delete_product`.

The site's content store is a `Store.Tables` value holding five tables: posts, post meta
keyed by (post id, key), `product_cat` terms, attachments by title, and the terms assigned
to each object. The WordPress functions the importer calls are functions over those tables:

- `wp_insert_post`, `wp_update_post` and `wp_delete_post`;
- `update_post_meta` and `delete_post_meta`;
- `term_exists` and `wp_insert_term`;
- `wp_set_object_terms` and `wp_insert_attachment`.

A few host behaviours cannot be modelled. They are fields of a `Store.Host` value:

- `sanitize_title`, which stays uninterpreted;
- the HTTP fetch, reduced to a content type and a body;
- the file upload;
- the current user's id.

PHP values are the `PhpValues.Value` datatype. Arrays are ordered lists of key/value
entries. The model follows PHP 7 rules for:

- loose comparison;
- `empty`;
- `is_numeric`;
- `intval`.

The importer object is the class `Importer.ProductImporter`. Its fields are the tables
(`db`) and the `$this->errors` collection (`errors`). Each public operation is a method that
changes those fields. Each method is proved to leave exactly the state its specification
function describes, and the properties of the operation are lemmas about those functions.

Modules, one per file:

- `Wrappers` holds `Option`.
- `PhpValues` holds PHP values, arrays and the string-to-number rules.
- `NatSets` picks the least element of a set of ids. A SQL `LIMIT 1` with no `ORDER BY`
  may return any matching row; the model returns the least id.
- `Store` holds the tables and the host functions.
- `ArgsMerge` holds `parse_args_r` and `wp_parse_args`.
- `ProductRecord` holds the defaults and the metas of `add_product`.
- `Images` holds `add_image_to_product`.
- `Categories` holds `add_category` and `add_product_to_category`.
- `Relations` holds the relations and `delete_product`.
- `Importer` holds the importer class and the lemmas about the whole of `add_product`.

Two of the source's quirks are modelled as written:

- `add_product_to_category` wraps an undefined variable when its argument is not an array,
  so it works on a list holding null (`Categories.NonArrayCategoriesAssignZero`).
- `add_category` never returns an error object, so the `is_wp_error` guards never filter
  anything.

Where the code and its doc comments disagree, the model follows the code:

- `product_exist` returns null, not false, when no product has the SKU.
- The found id is the decimal string the database returns, not an integer.
- `add_category` returns an existing term's id as a string and a new term's id as an
  integer.
- The doc comment of `delete_product` says that a call without `$force_delete` moves the
  product to the trash. `wp_delete_post` trashes only posts and pages, so the model deletes a
  product outright, with its meta and terms (`Relations.UnforcedDelete`).

## Model

| member | source | states |
|---|---|---|
| PhpValues.LooselyNullIsEmptyButZeroString | class-woocommerce-product-importer.php:126 | `$v != null` fails exactly for the values `empty` accepts, except the string '0' |
| PhpValues.Put | class-woocommerce-product-importer.php:726-728 | storing under a key makes the key read as the new value. Every other key keeps its value. A known key keeps its position; a new key goes at the end. Distinct keys stay distinct. |
| PhpValues.NatToStringRoundTrip | class-woocommerce-product-importer.php:708 | the decimal string of an id found by the SKU query is numeric and reads back as that id |
| PhpValues.UnderscoreNotNumeric | class-woocommerce-product-importer.php:239 | a string containing '_' is never numeric |
| NatSets.FindLeast | class-woocommerce-product-importer.php:708 | the loop finds the least id of a non-empty set of matching ids |
| Store.InsertPost | class-woocommerce-product-importer.php:110 | a new post gets the next free id, which no post had. Nothing else changes. |
| Store.UpdatePost | class-woocommerce-product-importer.php:106-108 | only the post with the id changes. Its parent, MIME type and guid are kept. No post is added or removed. |
| Store.UpdatedId | class-woocommerce-product-importer.php:108 | wp_update_post returns the id of an existing post, and 0 for an unknown one |
| Store.PutMeta | class-woocommerce-product-importer.php:127 | update_post_meta sets exactly one row, unless the id is 0. Every other row is kept. |
| Store.PutMetaTwice | class-woocommerce-product-importer.php:667 | writing the same meta value twice is writing it once |
| Store.DeleteMeta | class-woocommerce-product-importer.php:186 | delete_post_meta removes exactly one row and keeps the others |
| Store.StripMeta | class-woocommerce-product-importer.php:181-187 | all of a post's meta rows are removed. The other posts' rows are kept with their values. |
| Store.DeletePost | class-woocommerce-product-importer.php:189 | only a post or a page, deleted without force and not yet in the trash, is moved to the trash, with everything else kept. Any other post, a product included, is removed together with its meta rows, its term relationships and the attachment titles naming it. Every other row, and every other title with the post it names, is kept. An unknown id changes nothing. |
| Store.SkuLookup | class-woocommerce-product-importer.php:706-711 | product_exist gives null exactly when no post's `_sku` reads as the SKU |
| Store.SkuLookupFinds | class-woocommerce-product-importer.php:708 | a found id is a numeric string naming a post whose `_sku` matches. In valid tables it is truthy and at least 1. |
| Store.TermByName | class-woocommerce-product-importer.php:630 | the name half of term_exists finds a term with that name exactly when one exists |
| Store.TermExists | class-woocommerce-product-importer.php:630 | term_exists finds nothing exactly when no term holds the sanitised name as its slug and none has the name. A term holding the slug is found first, whatever its name; otherwise the lookup is the one by name. |
| Store.InsertTerm | class-woocommerce-product-importer.php:633-637 | a new term gets the next free term id. Nothing else changes. |
| Store.SetObjectTerms | class-woocommerce-product-importer.php:419 | the object's terms in the taxonomy become the list. Every other object and taxonomy keeps its terms, and no other table changes. |
| Store.InsertAttachment | class-woocommerce-product-importer.php:286-291 | an attachment post gets the next free id and is filed under its title. Meta, terms and term relationships are unchanged. |
| ArgsMerge.ParseArgsR | class-woocommerce-product-importer.php:719-733 | the merge always gives an array |
| ArgsMerge.ParseArgsKeys | class-woocommerce-product-importer.php:719-733 | the result's keys are exactly the union of the override keys and the default keys |
| ArgsMerge.ParseArgsDefaultOnly | class-woocommerce-product-importer.php:722 | a key present only in the defaults keeps its default value |
| ArgsMerge.ParseArgsOverride | class-woocommerce-product-importer.php:724-729 | an override value wins. An array override over a set default is merged into it recursively. |
| ArgsMerge.ParseArgsDefaultOrder | class-woocommerce-product-importer.php:722 | the defaults keep their order at the head of the result |
| ArgsMerge.ParseArgsDistinct | class-woocommerce-product-importer.php:719-733 | defaults with distinct keys give a result with distinct keys |
| ArgsMerge.ParseArgsEmptyOverrides | class-woocommerce-product-importer.php:720-722 | empty or null overrides give the defaults unchanged |
| ArgsMerge.ParseArgsEmptyDefaults | class-woocommerce-product-importer.php:720-729 | empty or null defaults give the overrides unchanged |
| ArgsMerge.ScalarDefaultIsWrapped | class-woocommerce-product-importer.php:720-726 | for every scalar default that is not null, an array override without key 0 merged into it gives the default under key 0 followed by the override's own entries, unchanged |
| ArgsMerge.MergeAppends | class-woocommerce-product-importer.php:722-730 | overrides whose keys are all new to the result are appended in their order, so empty defaults give the overrides back |
| ArgsMerge.MergeKeys | class-woocommerce-product-importer.php:724-730 | after the loop from any position, the keys are those of the rest of the overrides and those already in the result |
| ArgsMerge.MergeOverrideAt | class-woocommerce-product-importer.php:724-730 | the override at any position decides the value of its key |
| ArgsMerge.WpParseArg | class-woocommerce-product-importer.php:169 | an argument present in the array is taken as given; any other takes its default |
| ProductRecord.FinalMetas | class-woocommerce-product-importer.php:117-122 | the metas gain the derived `_stock_status`, and `_price` set to `_regular_price`. Every other meta is unchanged. |
| ProductRecord.StockStatusOutOfStockIffZero | class-woocommerce-product-importer.php:117-120 | `_stock_status` is 'outofstock' exactly when `_stock` is the integer 0, and 'instock' otherwise |
| ProductRecord.PriceIsRegularPrice | class-woocommerce-product-importer.php:122 | `_price` always equals `_regular_price` |
| ProductRecord.MetaWrittenIffNotLooselyNull | class-woocommerce-product-importer.php:126 | a meta is written exactly when it is not loosely null. Null, '' and the empty array are skipped; '0' is written. |
| ProductRecord.ApplyMetaWrites | class-woocommerce-product-importer.php:125-127 | the meta loop writes only the product's rows |
| ProductRecord.MetaWriteAt | class-woocommerce-product-importer.php:125-127 | a meta whose key occurs once ends up as the product's row when it is written, and leaves the row as it was when it is skipped |
| ProductRecord.MetaRowOf | class-woocommerce-product-importer.php:125-127 | the same, for a named meta of a metas array with distinct keys |
| ProductRecord.MetaWritesLeaveOthers | class-woocommerce-product-importer.php:125-127 | a key no meta has keeps its row |
| ProductRecord.CompletedMetasDistinct | class-woocommerce-product-importer.php:53-78 | completing arguments with distinct keys gives metas with distinct keys |
| ProductRecord.DefaultMetasDistinct | class-woocommerce-product-importer.php:53-76 | the default metas have distinct keys |
| Images.FetchModeRemoteCases | class-woocommerce-product-importer.php:228-229 | under loose comparison, 'remote', the integer 0 and true all take the remote case |
| Images.TruthiesKeepsTruthy | class-woocommerce-product-importer.php:221 | the cleaned list holds exactly the truthy images and no more images than the input |
| Images.TruthiesAppend | class-woocommerce-product-importer.php:221 | the filter distributes over concatenation, so it keeps the order and the repetitions of the images |
| Images.TruthiesSingle | class-woocommerce-product-importer.php:221 | one image is kept exactly when it is truthy |
| Images.LastDot | class-woocommerce-product-importer.php:231 | finds the last dot of a name, if there is one |
| Images.StripExtension | class-woocommerce-product-importer.php:231 | only a final dot-suffix with no dot in it is removed |
| Images.ImageName | class-woocommerce-product-importer.php:231-241 | the chosen name never equals the previous one under loose comparison |
| Images.AppendedNameDiffers | class-woocommerce-product-importer.php:238-239 | appending '_' and the index makes the name differ from the previous name |
| Images.ImageNameFallback | class-woocommerce-product-importer.php:231-241 | an empty derived name falls back to the product title; a new name is kept as it is; a name equal to the previous one gets '_' and the index appended |
| Images.MimeExtension | class-woocommerce-product-importer.php:265-277 | exactly image/jpg, image/jpeg, image/gif and image/png have an extension: jpg for the first two, gif and png for the others |
| Images.Download | class-woocommerce-product-importer.php:257-299 | each image adds exactly one id or one error. A missing or unsupported content type, or an upload that reports an error, adds one error under the image error code and leaves the tables and ids alone. Otherwise the next post id is pushed, no error is added, and the tables become exactly those of one attachment insert: the attachment post of the product filed under the slug. |
| Images.DownloadCreatesAttachment | class-woocommerce-product-importer.php:279-291 | a successful download adds exactly one post, under the next free id: an attachment titled by the slug, with the content type as its MIME type, the upload URL as its guid and the product as its parent. Every other post, and the meta, terms and term relationships, are kept. |
| Images.RemoteStep | class-woocommerce-product-importer.php:229-302 | the chosen name becomes the previous name. An attachment already filed under the sanitised name is reused: its id is pushed and nothing else changes. Any other image is downloaded. It yields one id or one error. |
| Images.TitleStep | class-woocommerce-product-importer.php:304-319 | an image found by title pushes that attachment's id; for the first image the only change to the tables is that id written as the product's `_thumbnail_id`, and later images change no table. A missing one changes nothing but adds one error under the image error code. |
| Images.ImageStep | class-woocommerce-product-importer.php:228-324 | one image changes only attachments, new posts and the product's thumbnail, and ids and errors only grow |
| Images.LoopShapeStep | class-woocommerce-product-importer.php:227-325 | each further image preserves the loop invariant |
| Images.RunImages | class-woocommerce-product-importer.php:227-325 | the image loop keeps the tables valid and within the image frame. In the remote and title modes it gives one id or one error per image, and every id names an attachment. |
| Images.RemoteNamesDiffer | class-woocommerce-product-importer.php:238-241 | two consecutive remote images never get equal names |
| Images.ImagesById | class-woocommerce-product-importer.php:321-323 | in the id mode the images themselves are the ids, and nothing else changes |
| Images.ImagesNoMode | class-woocommerce-product-importer.php:228-324 | a fetch mode that matches no case changes nothing |
| Images.ThumbnailAndGallery | class-woocommerce-product-importer.php:327-333 | when an id survives, the thumbnail is the first id and the gallery is the ids joined by ','. Otherwise nothing is written. |
| Images.AddImagesFrame | class-woocommerce-product-importer.php:218-333 | add_image_to_product keeps the tables valid, only adds errors and keeps existing posts. Of the meta rows, it writes only the thumbnail and the gallery. |
| Categories.AddCategorySpec | class-woocommerce-product-importer.php:610-641 | the result is false exactly for an empty name. The tables change only by one new term, whose id is returned, and only when term_exists finds nothing. |
| Categories.AddCategoryExisting | class-woocommerce-product-importer.php:630-632 | a term that term_exists finds is returned as a string, whatever the parent, and nothing is inserted: the holder of the sanitised slug when there is one, otherwise the term with the name |
| Categories.AddCategoryFindsOrInserts | class-woocommerce-product-importer.php:624-640 | a returned id is the one term_exists then finds for the name |
| Categories.AddCategoryIdempotent | class-woocommerce-product-importer.php:630-640 | adding the same category again finds the first call's term and inserts nothing |
| Categories.AddCategoryNew | class-woocommerce-product-importer.php:624-640 | a non-empty name that term_exists does not find is inserted as one new term with that name, slug, parent and description, and its new id is returned as an integer. Only a name that trims to nothing gives null, with nothing changed. |
| Categories.AddCategoryNullIff | class-woocommerce-product-importer.php:624-640 | the result is null exactly when term_exists finds nothing and the name trims to nothing, which wp_insert_term refuses |
| Categories.SlugOwnerIsFound | class-woocommerce-product-importer.php:630-640 | a term holding the sanitised slug of the name, the first if several do, is returned whatever its own name, and nothing is inserted |
| Categories.AddCategoryInsertsUnderParent | class-woocommerce-product-importer.php:627-637 | a new term has the name and the given parent. Its slug defaults to the sanitised name. It is inserted only when term_exists found nothing. |
| Categories.TermByNameAfterInsert | class-woocommerce-product-importer.php:630-633 | inserting a term with another name does not change a lookup by name |
| Categories.LevelArgs | class-woocommerce-product-importer.php:387-390 | a path level is added with its name, the previous level's id as parent, and an empty slug and description |
| Categories.SingleArgs | class-woocommerce-product-importer.php:402-404 | a single category is added with its name and parent 0 |
| Categories.RunPathCollects | class-woocommerce-product-importer.php:380-396 | the path loop yields one id per level, after the ids collected before it, and the last id is the next parent |
| Categories.RunPathTables | class-woocommerce-product-importer.php:381-396 | the path loop keeps the tables valid and changes only the terms |
| Categories.RunPathKeepsNumeric | class-woocommerce-product-importer.php:383-394 | a numeric level is collected as its own id |
| Categories.FreshLevelInserts | class-woocommerce-product-importer.php:387-395 | a level with a new name is inserted under the previous level and becomes the next parent |
| Categories.FreshPathChain | class-woocommerce-product-importer.php:379-396 | a path of new names creates a chain of terms: the first level under 0, each later level under the one before |
| Categories.ChainShapeNext | class-woocommerce-product-importer.php:382-395 | one more fresh level, inserted under the level before it, extends the chain |
| Categories.RunCategories | class-woocommerce-product-importer.php:378-409 | the outer loop yields one id per single category and per path level, and only the terms change |
| Categories.Dedup | class-woocommerce-product-importer.php:416 | array_unique keeps the same elements, each once |
| Categories.DedupSnoc | class-woocommerce-product-importer.php:416 | array_unique keeps first occurrences in input order: a further element is appended exactly when it is new |
| Categories.DedupOfDistinct | class-woocommerce-product-importer.php:416 | a list without duplicates is left unchanged |
| Categories.Intvals | class-woocommerce-product-importer.php:415 | each collected value is passed through intval |
| Categories.AssignedIdsMeaning | class-woocommerce-product-importer.php:415-416 | the assigned ids are integers, exactly the intval of the collected values, each once |
| Categories.AddToCategorySpec | class-woocommerce-product-importer.php:366-429 | add_product_to_category assigns terms only to the product's `product_cat`, and otherwise changes only the terms |
| Categories.AssignedCategories | class-woocommerce-product-importer.php:411-419 | with no collected id nothing is assigned. Otherwise the product gets exactly the intval'd collected ids without duplicates. |
| Categories.NonArrayCategoriesAssignZero | class-woocommerce-product-importer.php:374-375 | a non-array argument becomes a list holding null. That list records the value 0 as the product's categories and inserts no term. |
| Relations.RelatedIds | class-woocommerce-product-importer.php:658-664 | the relation loop keeps at most one id per SKU |
| Relations.RelatedIdsTruthy | class-woocommerce-product-importer.php:662-663 | only truthy ids are kept |
| Relations.RelatedIdsAppend | class-woocommerce-product-importer.php:658-664 | the ids keep the input order: the ids of a concatenation are the concatenation of the ids |
| Relations.RelatedIdsExactly | class-woocommerce-product-importer.php:658-664 | an id is kept exactly when it is the lookup of a SKU that some product has. Unknown SKUs are dropped. |
| Relations.KeptExactly | class-woocommerce-product-importer.php:660-663 | one SKU contributes its product's id when some product has it, and nothing otherwise |
| Relations.AssociateSpec | class-woocommerce-product-importer.php:654-668 | the relation meta is overwritten with the found ids, even when none is found. Every other row is kept. |
| Relations.SkuLookupIgnoresOtherMeta | class-woocommerce-product-importer.php:667 | writing a meta other than `_sku` does not change any SKU lookup |
| Relations.AssociateIdempotent | class-woocommerce-product-importer.php:654-694 | associating the same SKUs again changes nothing |
| Relations.DeleteSpec | class-woocommerce-product-importer.php:161-192 | delete_product returns false exactly when it has no id to act on, and then changes nothing. Terms are unchanged. |
| Relations.NonPositiveIdKeepsPosts | class-woocommerce-product-importer.php:181-189 | an id whose integer value is zero or negative deletes no post. Without force nothing changes; with force only the meta rows under its absolute value go. |
| Relations.ForcedDeleteRemovesAll | class-woocommerce-product-importer.php:181-189 | a forced delete of a positive id leaves neither the post nor any of its meta rows or term relationships, and keeps every other post's meta |
| Relations.UnforcedDelete | class-woocommerce-product-importer.php:189 | without force, for a positive id, a post or a page not yet in the trash goes there and keeps its meta and terms. A product, or any other post type, is deleted outright with its meta rows and term relationships. |
| Relations.DeleteUnknownSku | class-woocommerce-product-importer.php:174-178 | a SKU no product has makes the call return false with no change, even when a product id is given |
| Relations.DeleteKnownSku | class-woocommerce-product-importer.php:174-178 | a known SKU deletes a product that carries that SKU |
| Importer.TagTerms | class-woocommerce-product-importer.php:130 | the product's tags are the given tags, each trimmed |
| Importer.TermStage | class-woocommerce-product-importer.php:130-133 | the product's tag and type terms are set. Every other object and taxonomy keeps its terms, and no other table changes. |
| Importer.SavePost | class-woocommerce-product-importer.php:90-111 | saving the product post touches only the posts |
| Importer.MediaStageFrame | class-woocommerce-product-importer.php:135-139 | images and categories keep existing posts and meta rows, apart from the thumbnail, the gallery and the product's categories |
| Importer.AddProductFrame | class-woocommerce-product-importer.php:36-142 | add_product keeps the tables valid and only adds error messages |
| Importer.AddProductRequiresSku | class-woocommerce-product-importer.php:83-84 | a missing SKU records 'SKU is missing' and changes no table |
| Importer.AddProductInsertsNew | class-woocommerce-product-importer.php:105-111 | without an update of a known SKU, a new product is inserted under the next free id and returned. Every existing post is kept. |
| Importer.AddProductUpdatesExisting | class-woocommerce-product-importer.php:105-108 | with the update flag and a known SKU, that product is updated in place and its id is returned. Every other post is kept. |
| Importer.FillKeepsPosts | class-woocommerce-product-importer.php:116-141 | what follows the save keeps every post and returns the id |
| Importer.FillKeepsMeta | class-woocommerce-product-importer.php:129-139 | what follows the metas loop writes no meta row except the thumbnail and the gallery |
| Importer.MetaStageRows | class-woocommerce-product-importer.php:116-127 | the metas loop stores the SKU, the derived stock status and, when written, the price |
| Importer.AddProductMetaRows | class-woocommerce-product-importer.php:116-127 | the saved product's `_sku` is the SKU and its `_stock_status` is derived from `_stock`. Its `_price` is the regular price whenever that is written. |
| Importer.AddProductMakesSkuFindable | class-woocommerce-product-importer.php:90 | after add_product, product_exist finds a product for the SKU |
| Importer.AddProductSetsTerms | class-woocommerce-product-importer.php:129-133 | the saved product's tags are the trimmed tags, and its type terms are the given type |
| Importer.ProductImporter.constructor | class-woocommerce-product-importer.php:18-20 | a new importer starts with no error messages |
| Importer.ProductImporter.ProductExist | class-woocommerce-product-importer.php:706-711 | the SKU query returns the lookup over the meta table |
| Importer.ProductImporter.AddCategory | class-woocommerce-product-importer.php:610-641 | add_category leaves the tables and the result its specification gives |
| Importer.ProductImporter.AddProductToCategory | class-woocommerce-product-importer.php:366-429 | the two nested loops leave the tables the specification gives |
| Importer.ProductImporter.AddPath | class-woocommerce-product-importer.php:380-396 | the inner loop over one path leaves the tables and the collected ids of the path's specification, adding each level under the one before it, and records no error |
| Importer.ProductImporter.AddImageToProduct | class-woocommerce-product-importer.php:218-333 | the image loop, then the thumbnail and gallery, leave the tables and errors the specification gives |
| Importer.ProductImporter.ImagesLoop | class-woocommerce-product-importer.php:227-325 | the loop over the cleaned images computes the state that the image loop's specification describes |
| Importer.ProductImporter.AddProduct | class-woocommerce-product-importer.php:36-142 | add_product leaves the tables, the errors and the return value its specification gives |
| Importer.ProductImporter.SaveProduct | class-woocommerce-product-importer.php:90-111 | the post is updated or inserted as the specification says |
| Importer.ProductImporter.FillProductIn | class-woocommerce-product-importer.php:116-141 | everything after the save happens as the specification says |
| Importer.ProductImporter.FillTermsIn | class-woocommerce-product-importer.php:116-133 | the metas, tags and type are written as the specification says |
| Importer.ProductImporter.FillMediaIn | class-woocommerce-product-importer.php:135-139 | the images and the categories are attached as the specification says |
| Importer.ProductImporter.WriteMetas | class-woocommerce-product-importer.php:125-127 | the metas loop leaves the tables the specification gives |
| Importer.ProductImporter.DeleteProduct | class-woocommerce-product-importer.php:161-192 | delete_product leaves the tables and result its specification gives |
| Importer.ProductImporter.DeleteAllMeta | class-woocommerce-product-importer.php:181-187 | the loop over the meta keys removes exactly the product's rows |
| Importer.ProductImporter.AssociateBySku | class-woocommerce-product-importer.php:654-668 | a relation is written as its specification says |
| Importer.ProductImporter.FindRelated | class-woocommerce-product-importer.php:658-664 | the loop collects exactly the ids the relation specification gives |
| Importer.ProductImporter.AssociateUpsellSku | class-woocommerce-product-importer.php:654-668 | the upsell list is written under `_upsell_ids` |
| Importer.ProductImporter.AssociateCrosssellSku | class-woocommerce-product-importer.php:681-694 | the crosssell list is written under `_crosssell_ids` |

## Left out

- The HTTP fetch, the upload and the attachment metadata (`wp_remote_get`, `wp_upload_bits`,
  `wp_generate_attachment_metadata`, `wp_update_attachment_metadata`) are network and file
  I/O. Only their outcomes are modelled, as oracles of `Store.Host`, and the attachment
  metadata is not stored. `Store.InsertAttachment` therefore writes no `_wp_attached_file` meta
  row, which `wp_insert_attachment` writes for a file.
- `sanitize_title` is an uninterpreted function of `Store.Host`. The current user is a number
  in `Store.Host`.
- The `apply_filters` hooks are the identity.
- Term counting and caching (`wp_defer_term_counting`, `delete_option`,
  `wp_update_term_count_now`) are host-platform maintenance that changes no table modelled
  here.
- `add_variation_to_product` is not part of this model. It copies meta through raw SQL and
  reads undefined variables, so there is no coherent behaviour to state.
- The two regular expressions of `add_image_to_product` are modelled approximately:
  - the remote case drops the last dot-suffix (`Images.StripExtension`);
  - the title case drops one final known image extension (`Images.DropImageExtension`),
    rather than replacing every match in the string.
- Numbers:
  - numeric strings are optional white space, an optional sign and digits;
  - floats, exponents and hexadecimal are not modelled;
  - PHP integers are unbounded here.
- `wp_parse_args` on a query string (as in `delete_product( 'sku=...' )`) is not modelled: a
  non-array argument reads as empty.
- Host failures are limited:
  - `wp_insert_post` always succeeds;
  - `wp_update_post` fails only for an unknown id;
  - `wp_insert_term` fails only for a name that trims to nothing. Its database errors are not
    modelled.
- `Store.TermExists` matches the sanitised slug, then the exact name, and the SQL meta
  comparison matches exact text. Collation is not modelled. Neither is the trimming and
  unslashing of the name that `term_exists` does first. When several terms hold the slug, the
  least id is returned.
- `wp_unique_term_slug` is not modelled: a new term keeps the requested slug. The model
  reaches this only with an explicit `slug` argument that another term already holds. An array-valued meta matches no SKU, because its serialized form is not
  modelled.
- `Store.SkuLookup`: when several products share a SKU, the least id is returned. The SQL
  query may return any of them.
- `set_post_thumbnail` is reduced to writing `_thumbnail_id` with the absolute integer value
  of the id, whatever post that is. This includes id 0: with the id fetch mode and a first
  image whose absolute value is 0, the model writes `_thumbnail_id = 0`, where WordPress
  writes nothing.
- `wp_set_object_terms` records the values it is given. It does not resolve tag or type names
  to terms.
- Importer.AddProductMetaRows: stated only when the argument array has distinct keys. PHP
  arrays cannot hold a key twice, while `PhpValues.Value` can.
- Importer.AddProductMakesSkuFindable: stated only for a non-array SKU and an argument array
  with distinct keys. The serialized form of an array meta is not modelled, and PHP arrays
  cannot hold a key twice.
- Array keys: PHP stores a decimal-integer string key such as "5" as the integer key 5.
  The model keeps `StrKey("5")` and `IntKey(5)` apart, so a `Value` can hold arrays PHP
  cannot build. The operations never create such a pair from arrays PHP could build.
- `wp_delete_post` is modelled for a host whose trash is enabled and whose media trash is off,
  the WordPress defaults. It looks the post up by the id's integer value, so a zero or
  negative `product_id` deletes no post, while the meta functions act on the absolute value
  (`Relations.NonPositiveIdKeepsPosts`). Trashing records no `_wp_trash_meta_*` rows. A deletion does not
  reparent the post's children and does not touch comments or revisions, which the tables do
  not hold.
- Categories.FreshPathChain: stated for paths whose every level is new. Paths mixing existing
  names and numeric ids are covered step by step by `Categories.RunPathCollects`,
  `Categories.RunPathTables` and `Categories.RunPathKeepsNumeric`.
- Concurrency is not modelled. The code does nothing to control two imports of the same SKU.

# mui-admin core, modelled in Dafny

This project models the logic at the heart of the mui-admin dashboard and proves properties of it. The dashboard has two halves.

The backend is a set of route handlers:
- an object-storage API over a Cloudflare R2 bucket, which shows a flat key space as a folder tree. It covers listing, folder creation, move and delete cascades, the preview proxy, and single and multipart upload;
- the menu routes, which turn flat menu rows into a parent/child tree filtered by the user's role;
- the login and profile routes, which aggregate a role's permissions and build the profile `UPDATE` statement;
- the wildcard permission middleware.

The client is React code with small pieces of logic:
- the multipart uploader;
- the file explorer's name truncation, icons, breadcrumbs, rename and drag-move keys, and card selection;
- the storage page's upload, folder and rename keys;
- the extension→MIME and icon tables;
- the navigation-menu transform;
- the role page's menu-tree checkboxes;
- the user table's sort, selection and paging state.

The bucket is a class holding a `map<string, Obj>`, a version clock and the multipart sessions (`Bucket.Store`). Route handlers are methods on that store, and their contracts state the new map. Pure helpers are functions, with lemmas about them. Loops in the source are loops here, proved against a specification function:
- the listing fold;
- the cascades;
- the part loop;
- the map-filling and tree-building loops of the menu routes;
- the recursive `getAllChildIds`.

The database tables are sequences of rows. I/O, clocks and URI decoding are parameters:
- `now`/`nowIso` stand for `Date.now()` and `toISOString`;
- `decode`/`encode` stand for `decodeURIComponent`/`encodeURIComponent`, with `None` when decoding throws.

Modules:
- `Wrappers`: `Option`/`Result`.
- `JsString`: the JavaScript string operations the source uses. These are `split`, `filter(Boolean)`, `join`, `pop`, `lastIndexOf`, `substring`, first-occurrence `replace` (literal, and with its `$` patterns expanded), ASCII `toLowerCase`, `trim`, `String(int)`, `parseInt` and lexicographic ordering of characters.
- `Bucket`: the R2 binding.
- `Listing`: the list route.
- `R2Routes`: the other storage routes.
- `ContentTypes`: the proxy's content-type guesses compared with the client's table.
- `FileType`: the client's MIME and icon tables.
- `FileUploader`, `Finder` and `StorageView`: the storage client.
- `Rbac`, `Menus` and `Auth`: the backend routes for access control, menus and authentication.
- `NavMenus`: the menu hook.
- `TableSelection`: the row selection shared by the role and user tables.
- `RoleView` and `UserTable`: the role and user pages.

## Model

| member | source | states |
|---|---|---|
| Bucket.Store.constructor | backend/src/routes/r2.ts:13 | an empty bucket with no sessions |
| Bucket.Store.Get | backend/src/routes/r2.ts:283 | returns the stored object exactly when the key is present; nothing changes |
| Bucket.Store.Head | backend/src/routes/r2.ts:452 | returns the stored object exactly when the key is present; nothing changes |
| Bucket.Store.Put | backend/src/routes/r2.ts:335-344 | the key now holds the given bytes and metadata at the current version; every other key is unchanged; the clock advances by one |
| Bucket.Store.Delete | backend/src/routes/r2.ts:376 | the key is removed (a no-op when absent); every other key is unchanged |
| Bucket.Store.List | backend/src/routes/r2.ts:30 | returns a page satisfying IsPage: at most `limit` eligible objects under the prefix, ascending, a prefix of all eligible keys, truncated exactly when keys were left out; the store is unchanged |
| Bucket.CompletePage | backend/src/routes/r2.ts:380 | a page that is not truncated holds every stored key under the prefix |
| Bucket.PageDistinct | backend/src/routes/r2.ts:44 | a page never lists a key twice |
| Bucket.Store.CreateMultipartUpload | backend/src/routes/r2.ts:192-196 | opens a fresh empty session for the key with the given content type and returns its id |
| Bucket.Store.UploadPart | backend/src/routes/r2.ts:144-146 | an unknown session, or a part number outside 1..10000, fails; otherwise the part is stored under its number, replacing an earlier one, with a fresh etag |
| Bucket.Store.CompleteMultipartUpload | backend/src/routes/r2.ts:218-219 | succeeds exactly when the listed parts are present with their etags, ascending and, all but the last, at least 5 MiB; the key then holds their bytes concatenated and the session is closed |
| Listing.Classify | backend/src/routes/r2.ts:48-101 | a key is skipped if it equals the prefix, a marker if it ends in `/`, nested if two or more segments remain after the prefix, else a direct file |
| Listing.LastMarker | backend/src/routes/r2.ts:51-68 | the result, if any, is an object of the page that is a marker with that key |
| Listing.LastFile | backend/src/routes/r2.ts:91-100 | the result, if any, is an object of the page that is a direct file with that key |
| Listing.NestedCount | backend/src/routes/r2.ts:70-90 | counts the page's nested objects whose first remaining segment names the folder |
| Listing.Build | backend/src/routes/r2.ts:44-103 | the list route's map after processing the page; BuildIsExpected, BuildKeys and EntryExplained state its value at every key |
| Listing.BuildIsExpected | backend/src/routes/r2.ts:44-103 | the one-pass fold over the page yields, at every key, the entry the closed form (last marker, last file, nested count) determines |
| Listing.BuildKeys | backend/src/routes/r2.ts:33-41 | every entry of the map is stored under its own key |
| Listing.PrefixNeverListed | backend/src/routes/r2.ts:48 | the object whose key equals the prefix never has an entry |
| Listing.EntryShape | backend/src/routes/r2.ts:54-100 | an entry is a folder exactly when its key ends in `/`, and folders have size 0 |
| Listing.EntryExplained | backend/src/routes/r2.ts:44-103 | every entry comes from a marker or file of the page with that key, or from nested objects of the page |
| Listing.MarkerListed | backend/src/routes/r2.ts:51-68 | any key ending in `/` other than the prefix, at any depth, is listed under its full key as a folder of size 0 with the marker's upload time and etag, and the nested count kept |
| Listing.FileListed | backend/src/routes/r2.ts:91-100 | a key with at most one remaining segment is listed as a file with its size, etag and metadata |
| Listing.NestedHidden | backend/src/routes/r2.ts:70-90 | a deeper key is not listed itself; its first segment's folder `prefix + first + "/"` is listed and counts it |
| Listing.NestedCountAppend | backend/src/routes/r2.ts:89-90 | each further nested object on the page raises its folder's itemCount by exactly one |
| Listing.BeforeIrreflexive | backend/src/routes/r2.ts:106-110 | no entry precedes itself in the response order |
| Listing.BeforeAsymmetric | backend/src/routes/r2.ts:106-110 | two entries are never each before the other |
| Listing.BeforeTotal | backend/src/routes/r2.ts:106-110 | any two entries with different keys are ordered one way or the other |
| Listing.BeforeTransitive | backend/src/routes/r2.ts:106-110 | the response order is transitive |
| Listing.FoldersFirst | backend/src/routes/r2.ts:107-108 | in a sorted response every folder precedes every file |
| Listing.SortedUnique | backend/src/routes/r2.ts:106-110 | two sorted responses with the same entries are equal, so the order determines the response |
| Listing.SortedValues | backend/src/routes/r2.ts:106-110 | returns exactly the map's entries, each once, folders first and then by key |
| Listing.QueryLimit | backend/src/routes/r2.ts:15 | the limit the store receives lies in 1..1000; with no query it is 100 |
| Listing.DefaultQueryLimit | backend/src/routes/r2.ts:15 | a missing `limit` query means 100 |
| Listing.FillEntries | backend/src/routes/r2.ts:44-103 | the loop fills exactly the map the fold specification `Build` computes |
| Listing.FillEntry | backend/src/routes/r2.ts:45-102 | one object's effect on the map is exactly Step: skipped, a marker created or refreshed, a nested object counted in its folder, or a file entry stored |
| Listing.StepExpected | backend/src/routes/r2.ts:45-102 | one more object changes the entry at a key exactly as the closed form's last file, last marker and nested count change |
| Listing.ListObjects | backend/src/routes/r2.ts:11-117 | the response lists one store page folded into entries and sorted; `truncated` is the page's; the cursor is present only when truncated |
| R2Routes.NormaliseFolderPath | backend/src/routes/r2.ts:331 | the result ends in `/` and is the path, or the path plus one `/` |
| R2Routes.NormaliseFolderPathIdempotent | backend/src/routes/r2.ts:331 | normalising twice equals normalising once |
| R2Routes.CreateFolder | backend/src/routes/r2.ts:321-347 | an empty path fails with 400 and writes nothing; otherwise one empty directory object is written at the normalised key with its metadata, and that key is returned |
| R2Routes.Move | backend/src/routes/r2.ts:350-396 | 400 for a missing from or to; a decoding failure crashes with nothing written; 404 with nothing written when the source is absent; otherwise the source is copied to toKey and deleted, and for a `/` key every child on one list page is then copied and deleted |
| R2Routes.MovedKey | backend/src/routes/r2.ts:382 | the corrected literal prefix swap; MovedKeyOfPrefixed and MovedKeyInjective state it swaps fromKey for toKey and keeps distinct keys distinct (see Findings for the call as written) |
| R2Routes.MovedKeyOfPrefixed | backend/src/routes/r2.ts:382 | for a key under fromKey, the intended literal `replace` swaps the leading fromKey for toKey |
| R2Routes.MovedKeyAsWritten | backend/src/routes/r2.ts:382 | `replace` as written: for a key under fromKey, the expanded toKey followed by the key's remainder; without `$` in toKey, the literal swap |
| R2Routes.MovedKeyAsWrittenExpands | backend/src/routes/r2.ts:382 | as written, moving `a/` to `b$&/` sends `a/x` to `ba//x`, where the literal swap gives `b$&/x` |
| JsString.ReplaceFirstPlain | backend/src/routes/r2.ts:71 | a replacement without `$`, such as the list route's `''`, is inserted literally |
| R2Routes.MovedKeyInjective | backend/src/routes/r2.ts:382 | distinct keys under fromKey move to distinct keys |
| R2Routes.MoveChildrenEffect | backend/src/routes/r2.ts:381-392 | for distinct, present children under fromKey that are never copied onto one another, each child ends at toKey plus its remainder with its content; its old key is gone |
| R2Routes.MoveChildrenKeeps | backend/src/routes/r2.ts:381-392 | the cascade touches only the listed keys and their targets; every other key keeps its object |
| R2Routes.MoveListed | backend/src/routes/r2.ts:379-393 | the loop over the listed children leaves the store in the state MoveChildren computes from the old one; sessions unchanged |
| R2Routes.SeparatedNoCollision | backend/src/routes/r2.ts:381-392 | when neither key is a prefix of the other, no child is copied onto another child |
| R2Routes.MarkerKeysOutsideCascade | backend/src/routes/r2.ts:370-392 | neither the marker's old key nor its new key is touched by the children's cascade |
| R2Routes.FolderCascadeApplies | backend/src/routes/r2.ts:380-392 | the children listed after the marker moved meet the hypotheses of MoveChildrenEffect |
| R2Routes.MoveFolderRelocates | backend/src/routes/r2.ts:350-396 | moving a folder whose marker exists, to a key neither inside nor above it, with its children on one page: nothing under fromKey survives, and each key under it reappears under toKey with its content |
| R2Routes.MoveFolderKeepsOthers | backend/src/routes/r2.ts:350-396 | a folder move leaves keys under neither prefix untouched |
| R2Routes.IndexOfPiece | backend/src/routes/r2.ts:256 | `indexOf`: the first position holding the value, or -1 when none does |
| R2Routes.ResolveKeyParam | backend/src/routes/r2.ts:253-261 | the key parameter, or the one recovered from the path; ProxyPathRecoversKey and DeletePathRecoversKey state the fallback recovers the key after `/r2/proxy/` and `/r2/` |
| R2Routes.ProxyPathRecoversKey | backend/src/routes/r2.ts:253-261 | with the parameter missing, the path `/r2/proxy/<key>` gives back `<key>` |
| R2Routes.DeletePathRecoversKey | backend/src/routes/r2.ts:407-417 | with the parameter missing, the path `/r2/<key>` gives back `<key>` |
| R2Routes.Delete | backend/src/routes/r2.ts:399-440 | 400 when no key can be found; for a `/` key every key on one list page under it is deleted; the key itself is then always deleted; other keys are untouched |
| R2Routes.DeleteFolderEffect | backend/src/routes/r2.ts:431-438 | deleting a folder removes only keys under it, and when its children fit on one page none survives |
| R2Routes.ProxyContentType | backend/src/routes/r2.ts:288-299 | the stored content type when set, else the guess for the lower-cased extension |
| R2Routes.ProxyUnknownExtension | backend/src/routes/r2.ts:293-299 | without a stored type, an extension outside webp/jpg/jpeg/png/gif/svg leaves Content-Type unset |
| R2Routes.ProxyFileName | backend/src/routes/r2.ts:302 | the text after the last `/` when non-empty, else the whole key |
| R2Routes.Proxy | backend/src/routes/r2.ts:245-318 | 400 for a missing or blank key; the key is decoded, or kept raw when decoding fails; 404 when absent; otherwise the body with Content-Type, Content-Disposition, Content-Length and ETag as chosen; the store is only read |
| R2Routes.Info | backend/src/routes/r2.ts:443-465 | 400 for a missing key, a crash when decoding fails, 404 when absent, else the object's key, size, etag and metadata; the store is only read |
| R2Routes.GeneratedKey | backend/src/routes/r2.ts:158-161 | `${timestamp}-${fileName}`; R2Routes.Upload states a single upload without a key is stored under it |
| R2Routes.Upload | backend/src/routes/r2.ts:120-180 | 400 without a file, or for a part request without a key; a part request stores the part, or fails with 500 and the store's message; otherwise the file is stored under the given key or `<now>-<name>`, with its type or octet-stream and the upload metadata |
| R2Routes.UploadInit | backend/src/routes/r2.ts:183-202 | 400 without a key; otherwise a new session with the given content type or octet-stream |
| R2Routes.UploadComplete | backend/src/routes/r2.ts:205-227 | 400 without key, uploadId or parts; otherwise the session completes; a failed completion crashes; the reply carries the stored size (0 when none) and etag |
| ContentTypes.SameExtension | backend/src/routes/r2.ts:293 | the proxy and the client read the same lower-cased extension off a key |
| ContentTypes.ProxyAgreesWithMimeTable | backend/src/routes/r2.ts:293-299 | with no stored type, the proxy sets a type exactly for the six short-list extensions, and it is the one the client's MIME table gives |
| ContentTypes.GuessMatchesTable | src/utils/file-type.ts:9-59 | for each of the six extensions, the proxy's guess equals the MIME table's entry |
| FileType.Extension | src/utils/file-type.ts:7 | the result holds no `.`, is lower-case, and ends the lower-cased name |
| FileType.ToLowerIdempotent | src/utils/file-type.ts:7 | lower-casing twice equals lower-casing once |
| FileType.ExtensionOfLower | src/utils/file-type.ts:7 | lower-casing the name does not change its extension |
| FileType.MimeCaseInsensitive | src/utils/file-type.ts:7 | `a.JPG` and `a.jpg` get the same MIME type, for every name |
| FileType.GetFileIconFromExtension | src/utils/file-type.ts:65-98 | getFileIconFromExtension; IconCaseInsensitive, IconFallbacks and IconMatchesMimeMajorType state that it ignores case, falls back to the plain icon, and gives the gallery, video and music icons exactly to image, video and audio types |
| FileType.IconCaseInsensitive | src/utils/file-type.ts:66 | the icon lookup ignores the case of the name |
| FileType.ExtensionWithoutDot | src/utils/file-type.ts:7 | a name with no `.` is its own extension, lower-cased |
| FileType.BareUpperCaseName | src/utils/file-type.ts:7 | a bare `PDF` yields `application/pdf` |
| FileType.ExtensionAfterLastDot | src/utils/file-type.ts:7 | the extension is the lower-cased text after the last `.` |
| FileType.GetMimeTypeFromExtension | src/utils/file-type.ts:6-60 | getMimeTypeFromExtension on the own-entry table; its contract is stated by MimeCaseInsensitive, BareUpperCaseName, MimeFallback, OutsideTable and MimeMajorType (case-insensitive, octet-stream outside the table, major type by icon list) |
| FileType.MimeFallback | src/utils/file-type.ts:59 | an extension outside the table gets `application/octet-stream`; the lookup as written agrees unless the extension is `constructor` or `__proto__` |
| FileType.LookupAsWritten | src/utils/file-type.ts:9-59 | `mimeTypes[ext]` on the object literal: a table entry exactly for the table's keys, `undefined` exactly for other names except the inherited `constructor` and `__proto__` |
| FileType.GetMimeTypeAsWritten | src/utils/file-type.ts:59 | the result is a string exactly when the extension is not `constructor` or `__proto__`, and it is then the own-entry lookup's result |
| FileType.InheritedMimeAsWritten | src/utils/file-type.ts:59 | as written, `x.constructor` gets the `Object` function and `x.__proto__` gets `Object.prototype`, where own entries give octet-stream |
| FileType.InheritedName | src/utils/file-type.ts:7 | a name ending in `.constructor` or `.__proto__` has that extension, which is not a table key |
| FileType.IconsDistinct | src/utils/file-type.ts:69-97 | the eight icons are pairwise distinct |
| FileType.LongExtension | src/utils/file-type.ts:59 | an extension longer than four characters gets the fallback MIME type, and the same icon as no extension |
| FileType.MajorTypeOf | src/utils/file-type.ts:106 | `t/rest` has major type `t` |
| FileType.MajorTypeOfMime | src/utils/file-type.ts:106 | the major type of a table MIME string is its part before `/` |
| FileType.TableMajors | src/utils/file-type.ts:9-57 | every table entry's major type is one of image, video, audio, application, text |
| FileType.ImageMajors | src/utils/file-type.ts:11-18 | the image-list extensions are the table keys whose entry has major type image |
| FileType.ImagesAreImages | src/utils/file-type.ts:69 | each image-list extension maps to an `image/` type |
| FileType.OnlyImagesAreImages | src/utils/file-type.ts:69 | no other extension maps to an `image/` type |
| FileType.VideoMajors | src/utils/file-type.ts:20-26 | the video-list extensions are the table keys whose entry has major type video |
| FileType.VideosAreVideos | src/utils/file-type.ts:73 | each video-list extension maps to a `video/` type |
| FileType.OnlyVideosAreVideos | src/utils/file-type.ts:73 | no other extension maps to a `video/` type |
| FileType.AudioMajors | src/utils/file-type.ts:28-33 | the audio-list extensions are the table keys whose entry has major type audio |
| FileType.AudiosAreAudios | src/utils/file-type.ts:77 | each audio-list extension maps to an `audio/` type |
| FileType.OnlyAudiosAreAudios | src/utils/file-type.ts:77 | no other extension maps to an `audio/` type |
| FileType.TableMajorType | src/utils/file-type.ts:9-79 | the major type of each table entry, by the icon list its extension is on |
| FileType.OutsideTable | src/utils/file-type.ts:59 | an extension outside the table gets octet-stream, whose major type is application |
| FileType.MimeMajorType | src/utils/file-type.ts:9-79 | an extension's MIME type has major type image, video or audio exactly when it is on the corresponding icon list |
| FileType.IconMatchesMimeMajorType | src/utils/file-type.ts:65-79 | the gallery, video and music icons go to exactly the names whose MIME type has major type image, video and audio |
| FileType.IconFallbacks | src/utils/file-type.ts:97-132 | both icon functions fall back to the plain file icon for an unrecognised name |
| FileType.GetFileIcon | src/utils/file-type.ts:103-133 | getFileIcon; IconOfNothing, ContentTypeFirst, IconFallbacks, ItemIconOfExtension and ShortListsMissSome state its branch order and fallbacks |
| FileType.IconOfNothing | src/utils/file-type.ts:104 | with neither a content type nor a name, the icon is `solar:file-bold-duotone` |
| FileType.ContentTypeFirst | src/utils/file-type.ts:106-118 | an image content type wins over any extension; video and audio types win unless the extension is on an earlier short list |
| FileType.ItemIconMatchesExtensionIcon | src/sections/r2-storage/components/finder-view.tsx:437 | with no stored type, passing the table's MIME type to getFileIcon gives the extension icon, even for ico, bmp, webm and m4a |
| FileType.ItemIconOfExtension | src/utils/file-type.ts:103-132 | for any extension, getFileIcon given its table MIME type equals getFileIconFromExtension |
| FileType.ShortListsMissSome | src/utils/file-type.ts:110-118 | given only a name ending in ico, bmp, webm or m4a, getFileIcon returns the plain icon, while the extension function does not |
| FileUploader.ChunkCount | src/sections/r2-storage/components/file-uploader.tsx:80 | `Math.ceil(size / CHUNK_SIZE)`; ChunkCountBounds states it is the least number of 5 MiB chunks covering the file |
| FileUploader.ChunkCountBounds | src/sections/r2-storage/components/file-uploader.tsx:80 | the chunk count is the least number of whole chunks covering the file |
| FileUploader.ChunkShape | src/sections/r2-storage/components/file-uploader.tsx:84-87 | every chunk lies in the file; all but the last are exactly 5 MiB; the last is not empty |
| FileUploader.ChunksArePrefix | src/sections/r2-storage/components/file-uploader.tsx:84-87 | chunks 0..n concatenated are exactly the file's first bytes, up to the end of chunk n-1 |
| FileUploader.ChunksCoverFile | src/sections/r2-storage/components/file-uploader.tsx:84-87 | all chunks concatenated are the whole file |
| FileUploader.MultipartHasChunks | src/sections/r2-storage/components/file-uploader.tsx:49-80 | a file of 5 MiB or more has at least one chunk |
| FileUploader.Progress | src/sections/r2-storage/components/file-uploader.tsx:92 | the progress after part i; ProgressBounds and ProgressMonotone state it stays in 5..95, ends at 95 and never decreases |
| FileUploader.ProgressBounds | src/sections/r2-storage/components/file-uploader.tsx:92 | progress stays within 5..95 and is 95 after the last part |
| FileUploader.ProgressMonotone | src/sections/r2-storage/components/file-uploader.tsx:92 | progress never decreases as parts complete |
| FileUploader.PartsSentStep | src/sections/r2-storage/components/file-uploader.tsx:89-90 | storing the next chunk as part i+1 extends the parts list by that part and its etag |
| FileUploader.AssembleChunks | src/sections/r2-storage/components/file-uploader.tsx:89-101 | the listed parts assemble to the chunks they hold |
| FileUploader.CompleteAllParts | src/sections/r2-storage/components/file-uploader.tsx:101 | completing with every chunk's part succeeds; the object holds exactly the file's bytes; parts are numbered 1..N ascending |
| FileUploader.File.constructor | src/sections/r2-storage/components/file-uploader.tsx:38 | a file with the given name, type and bytes |
| FileUploader.UpdateFile | src/sections/r2-storage/components/file-uploader.tsx:93-97 | `prev.map(u => u.file === file ? change(u) : u)`: same length, the file's entries changed and every other entry as before; UpdateKeepsTracks states the files tracked stay the same |
| FileUploader.UpdateKeepsTracks | src/sections/r2-storage/components/file-uploader.tsx:93-97 | an update keeps the file's one new entry and leaves other files' entries untouched |
| FileUploader.RequestError | src/sections/r2-storage/components/file-uploader.tsx:110-117 | a failed reply's message, or a fallback, and never empty |
| FileUploader.CaughtMessage | src/sections/r2-storage/components/file-uploader.tsx:114 | the error message, or 'Upload failed' when it is empty |
| FileUploader.Uploader.constructor | src/sections/r2-storage/components/file-uploader.tsx:33 | no upload entries |
| FileUploader.Uploader.Mark | src/sections/r2-storage/components/file-uploader.tsx:50-53 | applies the change to the file's entries only |
| FileUploader.Uploader.UploadFile | src/sections/r2-storage/components/file-uploader.tsx:37-121 | under 5 MiB: one upload under `<now>-<name>`, then success at 100; otherwise one part per chunk and a completion storing exactly the file's bytes, then success; with more than 10000 chunks the part at 10001 fails, complete is never called, the entry ends in error and nothing is stored |
| FileUploader.Uploader.UploadSmall | src/sections/r2-storage/components/file-uploader.tsx:49-64 | the single-request branch stores the file and marks success at 100 |
| FileUploader.Uploader.UploadMultipart | src/sections/r2-storage/components/file-uploader.tsx:66-109 | init, the part loop and complete; success leaves the file's bytes under the multipart key; failure marks the entry as error |
| FileUploader.Uploader.SendParts | src/sections/r2-storage/components/file-uploader.tsx:84-98 | one request per chunk, numbered from 1; stops at the first failure; on success the session holds every chunk and the list records parts 1..N |
| FileUploader.SendChunk | src/sections/r2-storage/components/file-uploader.tsx:85-90 | chunk `i` is sent as part `i + 1`; it fails, with the part-number error, exactly when `i + 1` exceeds 10000; otherwise the parts list grows by that part and its etag |
| FileUploader.CompleteSent | src/sections/r2-storage/components/file-uploader.tsx:101 | completing after every chunk was sent stores exactly the file's bytes under the key, with the session's metadata |
| Finder.ItemName | src/sections/r2-storage/components/finder-view.tsx:201-204 | the last non-empty `/`-segment, or the whole key when there is none; never holds `/` unless it is the key |
| Finder.RenameDefaultName | src/sections/r2-storage/components/finder-view.tsx:152-153 | the dialog's starting name: the last non-empty segment, or empty |
| Finder.ItemNameOfChild | src/sections/r2-storage/components/finder-view.tsx:201-204 | a file or folder in a folder shows its own segment as its name |
| Finder.TruncateFileName | src/sections/r2-storage/components/finder-view.tsx:208-235 | names of at most 28 characters are unchanged |
| Finder.DotParts | src/sections/r2-storage/components/finder-view.tsx:215-218 | the stem and extension split the name at its last dot |
| Finder.TruncateDotBranch | src/sections/r2-storage/components/finder-view.tsx:219-228 | a long name with an extension is shown by the dot branch, and its stem never fits: the stem's two ends around the ellipsis, then the extension |
| Finder.TruncateKeepsExtension | src/sections/r2-storage/components/finder-view.tsx:215-229 | a long name whose extension (with its dot) is at most 25 characters keeps that extension and both ends of its stem, and is exactly 28 characters |
| Finder.TruncateLongExtension | src/sections/r2-storage/components/finder-view.tsx:219-228 | an extension too long to leave room is shown alone after the ellipsis |
| Finder.TruncateWithoutExtension | src/sections/r2-storage/components/finder-view.tsx:232-234 | without a usable extension a long name becomes its first 14 characters, `...`, and its last 11 |
| Finder.TruncateLength | src/sections/r2-storage/components/finder-view.tsx:208-235 | only an extension over 25 characters makes the shown name exceed 28 |
| Finder.CardIcon | src/sections/r2-storage/components/finder-view.tsx:437 | the card icon from the stored type or the name's MIME type; CardIconByExtension, TruncationKeepsIcon and CardIconAsWritten state that it depends only on the extension and agrees with the source wherever the source does not throw |
| Finder.CardIconByExtension | src/sections/r2-storage/components/finder-view.tsx:437 | two names with the same extension, or two unknown long ones, get the same card icon |
| Finder.CardIconAsWritten | src/sections/r2-storage/components/finder-view.tsx:435-437 | as written, the card icon throws exactly when there is no truthy stored type and the extension is `constructor` or `__proto__`; otherwise it equals `CardIcon` |
| Finder.InheritedExtensionThrows | src/sections/r2-storage/components/finder-view.tsx:437 | a card for `stem.constructor` without a stored type throws as written, and shows the plain file icon with own entries only |
| Finder.TruncationReachesInherited | src/sections/r2-storage/components/finder-view.tsx:432-437 | a dot-free 31-character name ending in `constructor` renders, but its truncation ends in `...constructor` and throws |
| Finder.TruncateDotFree | src/sections/r2-storage/components/finder-view.tsx:231-234 | a dot-free name over 28 characters shows its first 14 characters, `...` and its last 11 |
| Finder.TruncationKeepsDotExtension | src/sections/r2-storage/components/finder-view.tsx:432 | truncation keeps the extension of a name that has a usable one |
| Finder.TruncationKeepsTrailingDot | src/sections/r2-storage/components/finder-view.tsx:432 | a name ending in a dot keeps its empty extension |
| Finder.TruncationLongExtensions | src/sections/r2-storage/components/finder-view.tsx:432 | otherwise the name and its truncation both end in text longer than any table key |
| Finder.TruncationKeepsIcon | src/sections/r2-storage/components/finder-view.tsx:432-437 | computing the icon from the truncated name never changes it |
| Finder.ItemIcon | src/sections/r2-storage/components/finder-view.tsx:435-437 | the folder icon, or the card icon of the truncated name; ItemIconWithoutContentType states that without a stored type it is the full name's extension icon |
| Finder.ItemIconWithoutContentType | src/sections/r2-storage/components/finder-view.tsx:435-437 | without a stored content type, a file card shows its full name's extension icon |
| Finder.PathParts | src/sections/r2-storage/components/finder-view.tsx:184 | the non-empty `/`-segments of the path, none holding `/` |
| Finder.SliceEnd | src/sections/r2-storage/components/finder-view.tsx:187 | `slice`'s end index: clamped into 0..len, counting back from the end when negative |
| Finder.FolderPathParts | src/sections/r2-storage/components/finder-view.tsx:184-187 | a folder key built from segments splits back into them |
| Finder.BreadcrumbPath | src/sections/r2-storage/components/finder-view.tsx:185-188 | the breadcrumb target; BreadcrumbIsAncestor states that index -1 is the root and index i the ancestor of i+1 segments |
| Finder.BreadcrumbIsAncestor | src/sections/r2-storage/components/finder-view.tsx:185-188 | index -1 goes to the root; index i goes to the ancestor made of the first i+1 segments; the last one goes to the folder itself |
| Finder.RenameTargetAsWritten | src/sections/r2-storage/components/finder-view.tsx:673-677 | no move exactly when the name is blank |
| Finder.RenameTarget | src/sections/r2-storage/components/finder-view.tsx:673-677 | corrected rename: a blank name moves nothing, and a move never targets the old key |
| Finder.ParentOfChild | src/sections/r2-storage/components/finder-view.tsx:676 | the parent of `parent+name`, and of `parent+name+"/"` once its slash is set aside, is `parent` |
| Finder.SiblingsDiffer | src/sections/r2-storage/components/finder-view.tsx:677 | different names in one folder give different keys |
| Finder.RenameFileKeepsParent | src/sections/r2-storage/components/finder-view.tsx:673-677 | the corrected rename keeps a file in its folder under the new name |
| Finder.RenameFolderKeepsParent | src/sections/r2-storage/components/finder-view.tsx:673-677 | the corrected rename keeps a folder in its parent under the new name |
| Finder.RenameUnchangedIsIgnored | src/sections/r2-storage/components/finder-view.tsx:673-677 | the corrected rename does nothing when the name is unchanged |
| Finder.RenameFileAsWritten | src/sections/r2-storage/components/finder-view.tsx:697-701 | as written, a file's rename already keeps its folder |
| Finder.RenameFolderAsWrittenNests | src/sections/r2-storage/components/finder-view.tsx:697-701 | as written, renaming `parent/name/` to `n` targets `parent/name/n/`, inside itself |
| Finder.RenameUnchangedAsWrittenDeletes | src/sections/r2-storage/components/finder-view.tsx:673-678 | as written, an unchanged file name moves the file onto itself, and the copy-then-delete removes it |
| Finder.Drop | src/sections/r2-storage/components/finder-view.tsx:95-117 | dropped files upload to the hovered folder or the current one; a dragged file dropped on a folder moves there under its name; anything else does nothing |
| Finder.DropMoveKeepsName | src/sections/r2-storage/components/finder-view.tsx:105-107 | a dragged file lands in the folder under the name its card shows |
| Finder.ClickSelection | src/sections/r2-storage/components/finder-view.tsx:444-457 | a modifier click flips the key's membership and keeps all others; a plain click gives exactly {key} |
| Finder.ToggleTwiceRestores | src/sections/r2-storage/components/finder-view.tsx:445-454 | two modifier clicks on one card restore the selection |
| Finder.Selection.constructor | src/sections/r2-storage/components/finder-view.tsx:444-457 | nothing selected |
| Finder.Selection.Click | src/sections/r2-storage/components/finder-view.tsx:444-457 | the selection becomes ClickSelection of the old one |
| StorageView.UploadKey | src/sections/r2-storage/view/r2-storage-view.tsx:49 | the folder path followed by the file name (just the name at the root) |
| StorageView.UploadPath | src/sections/r2-storage/view/r2-storage-view.tsx:44 | `targetPath || currentPath`; View.HandleUpload states the files are stored under it |
| StorageView.UploadKeyInFolder | src/sections/r2-storage/view/r2-storage-view.tsx:44-50 | a file uploaded into a folder is stored there and shown under its own name |
| StorageView.StoredKey | src/sections/r2-storage/view/r2-storage-view.tsx:47-50 | the key the server stores a file under; UploadKeyInFolder and UploadKeysDistinct state it is the folder plus the name, shown under that name, and distinct for distinct names |
| StorageView.UploadKeysDistinct | src/sections/r2-storage/view/r2-storage-view.tsx:49 | files with different names dropped into one folder get different keys |
| StorageView.UploadWrites | src/sections/r2-storage/view/r2-storage-view.tsx:46-54 | one write per file, in order, at consecutive versions |
| StorageView.ApplyWritesKeepsOthers | src/sections/r2-storage/view/r2-storage-view.tsx:46-54 | a key no write touches keeps its object |
| StorageView.ApplyWritesLastWins | src/sections/r2-storage/view/r2-storage-view.tsx:46-54 | a write whose key no later write reuses is what that key ends up holding |
| StorageView.UploadAllKeepsOthers | src/sections/r2-storage/view/r2-storage-view.tsx:42-59 | a key no uploaded file uses keeps its object |
| StorageView.UploadAllStores | src/sections/r2-storage/view/r2-storage-view.tsx:42-59 | a file whose key no later file reuses ends up stored with its bytes, type and upload metadata |
| StorageView.NewFolderPath | src/sections/r2-storage/view/r2-storage-view.tsx:138 | the current path, the name, and `/` |
| StorageView.NewFolderPathKept | src/sections/r2-storage/view/r2-storage-view.tsx:138 | the server keeps the sent key as is, and the folder shows under its name |
| StorageView.RenamePathAsWritten | src/sections/r2-storage/view/r2-storage-view.tsx:123-125 | the target starts with the text up to the key's last `/`, and ends in `/` when the key does |
| StorageView.RenamePathIsDialogTarget | src/sections/r2-storage/view/r2-storage-view.tsx:123-125 | for a non-blank name it is the explorer dialog's target |
| StorageView.RenamePathAsWrittenNests | src/sections/r2-storage/view/r2-storage-view.tsx:123-125 | a folder `parent/name/` renamed to `n` goes to `parent/name/n/` |
| StorageView.RenamePath | src/sections/r2-storage/view/r2-storage-view.tsx:123-125 | corrected target: starts with the parent of the key without its trailing `/`, and ends in `/` for a folder |
| StorageView.RenamePathKeepsParent | src/sections/r2-storage/view/r2-storage-view.tsx:123-125 | the corrected target keeps a file or folder in its parent, under the new name, with its kind |
| StorageView.DownloadFileName | src/sections/r2-storage/view/r2-storage-view.tsx:86 | the key itself, or a non-empty name free of `/` |
| StorageView.DownloadNameIsItemName | src/sections/r2-storage/view/r2-storage-view.tsx:86 | a file downloads under the name its card shows |
| StorageView.ListLimitQuery | src/sections/r2-storage/view/r2-storage-view.tsx:25 | the requested 500 reaches the store as 500 |
| StorageView.UploadOne | src/sections/r2-storage/view/r2-storage-view.tsx:47-50 | the file is stored under its key with its type and metadata; nothing else changes |
| StorageView.View.constructor | src/sections/r2-storage/view/r2-storage-view.tsx:20 | starts at the root with no files |
| StorageView.View.LoadFiles | src/sections/r2-storage/view/r2-storage-view.tsx:22-32 | the files are the sorted entries of one page of the current folder, at most 500 |
| StorageView.View.Navigate | src/sections/r2-storage/view/r2-storage-view.tsx:34-40 | the path changes; the listing reloads only when it differs |
| StorageView.View.HandleUpload | src/sections/r2-storage/view/r2-storage-view.tsx:42-59 | every file is stored in order under the target folder; other keys are untouched; then one reload |
| StorageView.UploadEach | src/sections/r2-storage/view/r2-storage-view.tsx:46-54 | the loop over the files leaves the objects UploadAll computes from the old ones and advances the clock once per file |
| StorageView.View.HandleCreateFolder | src/sections/r2-storage/view/r2-storage-view.tsx:135-141 | one folder marker at the new path, then a reload |
| StorageView.View.HandleRename | src/sections/r2-storage/view/r2-storage-view.tsx:120-133 | succeeds exactly when both keys are given, decode, and the source exists; then the store ends as R2Routes.Move leaves it for the decoded as-written target, the reply names that key and the listing reloads; otherwise the store and the files are unchanged. FinderView receives this handler but never calls it (finder-view.tsx:40, 53) |
| Rbac.Permissions | backend/src/middlewares/rbac.ts:7-8 | the user's list, or empty when the user or the list is missing |
| Rbac.Permission | backend/src/middlewares/rbac.ts:4-14 | either calls next or rejects with 403 'Forbidden' |
| Rbac.PermissionAllows | backend/src/middlewares/rbac.ts:10-13 | next is called exactly when the list holds `*` or the required permission |
| Rbac.WildcardGrantsAll | backend/src/middlewares/rbac.ts:10 | `*` grants every permission |
| Rbac.MissingUserDenied | backend/src/middlewares/rbac.ts:7-8 | a missing user or permission list is refused with 403 |
| Rbac.ExactPermissionNeeded | backend/src/middlewares/rbac.ts:10 | without `*`, only the exact permission passes |
| Rbac.PermissionMonotone | backend/src/middlewares/rbac.ts:10 | granting more permissions never takes access away |
| Menus.PermissionList | backend/src/routes/menus.ts:63 | no empty piece, no comma; empty for a missing or empty column; otherwise a value is listed exactly when it is a non-empty comma piece of the column |
| Menus.StoredPermission | backend/src/routes/menus.ts:153 | the permission column as written; PermissionRoundTrip and PermissionRestoreStable state that reading it back gives the list when no entry is empty or holds a comma |
| Menus.PermissionRoundTrip | backend/src/routes/menus.ts:153 | permissions joined with `,` and read back are unchanged when none is empty or holds a comma |
| Menus.PermissionRestoreStable | backend/src/routes/menus.ts:182 | re-storing a column that was read drops its empty pieces and nothing more |
| Menus.ToMenu | backend/src/routes/menus.ts:47-66 | id is the row id in decimal; parentId defaults to '0'; menuSort to 0; state and flags are truthiness; permissions are the column's pieces |
| Menus.MenuIdIdentifiesRow | backend/src/routes/menus.ts:48 | rows with different ids give menus with different ids |
| Menus.RowDefaults | backend/src/routes/menus.ts:49-54 | a row without a parent is a child of '0'; one without a sort key sorts as 0 |
| Menus.Collect | backend/src/routes/menus.ts:39-68 | the menu map after the row loop; CollectMenus, CollectWellFormed, CollectKeys, CollectRecords, CollectOrder, AuthorizedOnly and AdminSeesEveryRow state its keys, records and order |
| Menus.CollectMenus | backend/src/routes/menus.ts:39-68 | the loop fills exactly the map the fold Collect describes |
| Menus.CollectWellFormed | backend/src/routes/menus.ts:37-67 | the insertion order lists each key once, and every entry sits under its own id |
| Menus.CollectKeys | backend/src/routes/menus.ts:39-68 | the map holds exactly the ids of the admitted rows |
| Menus.AuthorizedOnly | backend/src/routes/menus.ts:43-45 | for a non-admin only granted ids appear |
| Menus.AdminSeesEveryRow | backend/src/routes/menus.ts:43 | for a super admin, and for `GET /`, every row appears |
| Menus.CollectRecords | backend/src/routes/menus.ts:47-67 | with distinct row ids, each admitted row's record is stored under its id |
| Menus.CollectOrder | backend/src/routes/menus.ts:35-67 | with distinct row ids, the insertion order is the row order of the admitted rows |
| Menus.PlacedMember | backend/src/routes/menus.ts:71-78 | a list the loop builds holds exactly the ids placed there |
| Menus.BuildTree | backend/src/routes/menus.ts:70-79 | the roots and each parent's children are the ids the loop places there, in map order |
| Menus.PlacedStep | backend/src/routes/menus.ts:71-78 | one loop step appends the next id to the list it is placed in, and to no other |
| Menus.PlacedDistinct | backend/src/routes/menus.ts:71-78 | no list holds an id twice |
| Menus.PlacedKeepsOrder | backend/src/routes/menus.ts:71 | the lists keep the map's insertion order |
| Menus.Place | backend/src/routes/menus.ts:71-78 | where a menu is pushed; PlacedExactlyOnce and BuildTree state each menu lands once, at the root or under its parent |
| Menus.PlacedExactlyOnce | backend/src/routes/menus.ts:71-78 | every menu is pushed exactly once: a root when its parent is '', '0' or missing from the map, else a child of its parent only |
| Menus.TreeKeepsOrder | backend/src/routes/menus.ts:70-79 | root order and sibling order follow the order of insertion, which is the query's menu_sort order |
| Menus.SuperAdminPassesEveryCheck | backend/src/routes/menus.ts:14 | a user holding `*` is a super admin and passes every permission check |
| Menus.Authorized | backend/src/routes/menus.ts:8-82 | a super admin gets the tree of all rows; otherwise no user row, or no granted menu, gives []; else the tree of the granted rows |
| Menus.ListAll | backend/src/routes/menus.ts:85-127 | the tree of all rows |
| Menus.AdmitAllIgnoresList | backend/src/routes/menus.ts:43 | admitting all rows makes the authorized list irrelevant |
| Auth.FindUser | backend/src/routes/auth.ts:18-21 | the first row matching username and password, or none exactly when no row matches |
| Auth.FirstById | backend/src/routes/auth.ts:28-31 | the first row with that id, or none exactly when no row has it; the role lookup here and the user lookup of auth.ts:79-82 |
| Auth.Dedupe | backend/src/routes/auth.ts:56 | `Array.from(new Set(xs))`; DedupeContents, DedupeFirstOccurrenceOrder and DedupeDistinct state the same values without repeats, in first-occurrence order |
| Auth.DedupeContents | backend/src/routes/auth.ts:56 | deduplication keeps every value, adds none, and repeats none |
| Auth.DedupeFirstOccurrenceOrder | backend/src/routes/auth.ts:56 | values come out in the order of their first occurrence |
| Auth.DedupeDistinct | backend/src/routes/auth.ts:56 | a list without repeats is unchanged |
| Auth.PiecesMembers | backend/src/routes/auth.ts:50-53 | a value is a piece exactly when some non-empty column's split holds it |
| Auth.PiecesHaveNoComma | backend/src/routes/auth.ts:53 | no piece holds a comma |
| Auth.AggregatePermissions | backend/src/routes/auth.ts:50-56 | a non-super-admin role's permission list; AggregateWellFormed and AggregateOrder state it is exactly the distinct non-empty comma-free pieces, in first-occurrence order |
| Auth.AggregateWellFormed | backend/src/routes/auth.ts:50-56 | the list repeats nothing, holds no empty string or comma, and holds exactly the non-empty pieces of the columns |
| Auth.AggregateOrder | backend/src/routes/auth.ts:56 | permissions come in the order of their first occurrence among the pieces |
| Auth.Login | backend/src/routes/auth.ts:9-70 | 400 'Invalid credentials' exactly when no user matches; otherwise a token for a matching user's id and username |
| Auth.SuperAdminLogin | backend/src/routes/auth.ts:36-37 | a `super_admin` gets exactly `*`, user:view, user:add, user:edit, user:delete, which pass every check |
| Auth.OtherRoleLogin | backend/src/routes/auth.ts:38-57 | any other user gets the deduplicated non-empty pieces of their role's joined menu permissions |
| Auth.ReadProfile | backend/src/routes/auth.ts:73-97 | 404 'User not found' exactly when no row has the token's id; otherwise that row's fields with the token's permissions |
| Auth.UpdateProfile | backend/src/routes/auth.ts:100-136 | 400 'No fields to update' exactly when no field is set; otherwise the statement of the assignments and their values plus the user id |
| Auth.AssignmentsOrder | backend/src/routes/auth.ts:109-122 | fields are set in the order nickname, avatar, password, each only when given, and the password only when non-empty |
| Auth.PlaceholdersMatchValues | backend/src/routes/auth.ts:124-133 | the statement has exactly one `?` per bound value, and the user id binds to `WHERE id = ?` |
| Auth.Statement | backend/src/routes/auth.ts:131 | the profile `UPDATE` text; StatementPlaceholders and PlaceholdersMatchValues state one `?` per clause plus the id, matching the bound values |
| Auth.StatementPlaceholders | backend/src/routes/auth.ts:131 | the statement has one placeholder more than there are clauses |
| NavMenus.Enabled | src/hooks/use-menus.tsx:27 | keeps exactly the menus whose state is true; one menu is kept alone or dropped |
| NavMenus.EnabledConcat | src/hooks/use-menus.tsx:27 | the filter distributes over concatenation, so it keeps order and multiplicity |
| NavMenus.SortByMenuSort | src/hooks/use-menus.tsx:28 | the stable `menuSort` sort; SortPermutes, SortSorted and SortStable state a permutation, ordered by menuSort, keeping the order of equal keys |
| NavMenus.SortPermutes | src/hooks/use-menus.tsx:28 | the sort is a permutation of its input |
| NavMenus.SortSorted | src/hooks/use-menus.tsx:28 | the result is ordered by menuSort |
| NavMenus.SortStable | src/hooks/use-menus.tsx:28 | menus with equal menuSort keep their relative order |
| NavMenus.ShownLevel | src/hooks/use-menus.tsx:26-28 | one level's shown menus are the enabled ones, sorted, in a stable order |
| NavMenus.Transform | src/hooks/use-menus.tsx:15-33 | title, path and icon as the rule says; children present exactly when the menu has a non-empty children array, one item per shown child |
| NavMenus.NavData | src/hooks/use-menus.tsx:57-67 | no menus give no items; otherwise one item per shown menu |
| NavMenus.Title | src/hooks/use-menus.tsx:17 | the item title; TitleChoice states the i18n translation, else meta.title, else the name |
| NavMenus.TitleChoice | src/hooks/use-menus.tsx:17 | the title is the translation of i18n when set, else meta.title, else the name |
| NavMenus.ItemsComeFromEnabledMenus | src/hooks/use-menus.tsx:25-30 | each child item comes from an enabled child, in shown order, transformed recursively |
| NavMenus.AllChildrenDisabled | src/hooks/use-menus.tsx:25-30 | children that are all disabled give an empty list, not none |
| NavMenus.TopLevelItems | src/hooks/use-menus.tsx:58-63 | each top-level item is the transform of the shown menu at its position |
| TableSelection.Without | src/sections/role/view/role-view.tsx:269 | keeps exactly the values other than the removed one |
| TableSelection.WithoutAbsent | src/sections/user/view/user-view.tsx:413 | removing an absent value changes nothing |
| TableSelection.WithoutDistinct | src/sections/user/view/user-view.tsx:413 | removing keeps a list of distinct ids distinct |
| TableSelection.ToggleRow | src/sections/user/view/user-view.tsx:410-419 | onSelectRow's new list; ToggleRowMembership, ToggleRowDistinct and ToggleRowTwice state it flips the id's membership, keeps the others and preserves distinctness |
| TableSelection.ToggleRowMembership | src/sections/user/view/user-view.tsx:410-419 | a click flips the clicked id's membership and keeps every other id |
| TableSelection.ToggleRowDistinct | src/sections/role/view/role-view.tsx:266-274 | a click keeps a list of distinct ids distinct |
| TableSelection.ToggleRowTwice | src/sections/user/view/user-view.tsx:410-419 | two clicks on an unselected row restore the list; on a selected row they move its id last |
| RoleView.Descendants | src/sections/role/view/role-view.tsx:54-63 | the ids getAllChildIds collects; GetAllChildIds, DescendantsMembers, LeafHasNoDescendants and OwnIdNotDescendant state that the loop computes it and that it is exactly the proper descendants |
| RoleView.GetAllChildIds | src/sections/role/view/role-view.tsx:54-63 | returns exactly Descendants(m): each child's id followed by its own descendants, in order |
| RoleView.LeafHasNoDescendants | src/sections/role/view/role-view.tsx:57 | a menu without children has no descendant ids |
| RoleView.DescendantsMembers | src/sections/role/view/role-view.tsx:54-63 | an id is a descendant exactly when it is a child's id or a child's descendant |
| RoleView.OwnIdNotDescendant | src/sections/role/view/role-view.tsx:54-63 | with unique ids in the subtree, the menu's own id is never among its descendants |
| RoleView.CheckboxStatesExclusive | src/sections/role/view/role-view.tsx:66-100 | all-selected and some-selected never hold together; a leaf is all-selected and not some-selected; an indeterminate box has children and is unchecked |
| RoleView.ToggleMenu | src/sections/role/view/role-view.tsx:212-219 | handleToggleMenu on the previous list; ToggleMenuEffect states that checking adds an absent id, unchecking removes every occurrence, and nothing else moves |
| RoleView.ToggleMenuEffect | src/sections/role/view/role-view.tsx:212-219 | checking adds the id only if absent and unchecking removes all of its occurrences; other ids keep their membership; distinct lists stay distinct |
| RoleView.ToggleAll | src/sections/role/view/role-view.tsx:79-80 | a run of toggles; ToggleAllEffect and ToggleSubtreeEffect state the toggled ids carry the checked value and the others are unchanged |
| RoleView.ToggleAllEffect | src/sections/role/view/role-view.tsx:79-80 | after a run of toggles, the toggled ids carry the checked value and others are as before |
| RoleView.ToggleSubtreeEffect | src/sections/role/view/role-view.tsx:75-81 | after a menu is toggled, it and all its descendants carry the value; other ids are unchanged; a checked menu is all-selected; no box is indeterminate |
| RoleView.Slice | src/sections/role/view/role-view.tsx:329-330 | `slice` with clamped bounds; VisibleRoles, RoleOnItsPage and PagePastEnd state the page's length and contents |
| RoleView.VisibleRoles | src/sections/role/view/role-view.tsx:329-330 | rowsPerPage roles from page·rowsPerPage on, fewer on the last page and none past the end, in order |
| RoleView.RoleOnItsPage | src/sections/role/view/role-view.tsx:329-330 | role i is shown on page i / rowsPerPage at row i % rowsPerPage |
| RoleView.PagePastEnd | src/sections/role/view/role-view.tsx:329-330 | a page starting past the end shows nothing |
| RoleView.RolePage.constructor | src/sections/role/view/role-view.tsx:139-152 | page 0, 10 rows per page, nothing selected |
| RoleView.RolePage.ToggleMenuId | src/sections/role/view/role-view.tsx:212-219 | the menu list becomes ToggleMenu of the old one; nothing else changes |
| RoleView.RolePage.ToggleTree | src/sections/role/view/role-view.tsx:75-81 | the menu, then each descendant in order, is toggled to the value |
| RoleView.RolePage.SelectRow | src/sections/role/view/role-view.tsx:266-274 | the row selection is toggled for the id; nothing else changes |
| RoleView.RolePage.ChangePage | src/sections/role/view/role-view.tsx:360 | the page is the new page; nothing else changes |
| RoleView.RolePage.ChangeRowsPerPage | src/sections/role/view/role-view.tsx:362-365 | the new page size, and back to page 0 |
| UserTable.NextOrder | src/sections/user/view/user-view.tsx:395-396 | descending exactly when the column is already sorted ascending |
| UserTable.NewColumnAscending | src/sections/user/view/user-view.tsx:395-396 | a new column sorts ascending |
| UserTable.SameColumnAlternates | src/sections/user/view/user-view.tsx:393-400 | repeated clicks on one column alternate its direction |
| UserTable.Table.constructor | src/sections/user/view/user-view.tsx:387-391 | page 0, sorted by 'username' ascending, 5 rows, nothing selected |
| UserTable.Table.OnSort | src/sections/user/view/user-view.tsx:393-400 | the next direction, and the column becomes the sort column |
| UserTable.Table.OnSelectAllRows | src/sections/user/view/user-view.tsx:402-408 | selects the given ids when checked, else nothing |
| UserTable.Table.OnSelectRow | src/sections/user/view/user-view.tsx:410-419 | the selection is toggled for the value |
| UserTable.Table.OnResetPage | src/sections/user/view/user-view.tsx:421-423 | the page is 0; nothing else changes |
| UserTable.Table.OnChangePage | src/sections/user/view/user-view.tsx:425-427 | the page is the new page; nothing else changes |
| UserTable.Table.OnChangeRowsPerPage | src/sections/user/view/user-view.tsx:429-435 | the new page size, and page 0 |
| UserTable.UserPage.constructor | src/sections/user/view/user-view.tsx:387-391 | an empty filter and a fresh table in its initial state |
| UserTable.UserPage.OnFilterName | src/sections/user/view/user-view.tsx:232-235 | the filter text is stored and the page goes back to 0; the rest of the table is unchanged |
| UserTable.FindRole | src/sections/user/view/user-view.tsx:175 | the first role whose id reads as the text, or none exactly when no role matches |
| UserTable.FirstRoleIndex | src/sections/user/view/user-view.tsx:175 | the index of the first role from a position on whose id reads as the text, every earlier one differing; the length when none matches |
| UserTable.GetRoleName | src/sections/user/view/user-view.tsx:172-179 | never empty |
| UserTable.RoleNameMissing | src/sections/user/view/user-view.tsx:174-176 | no role id, an empty one, or one that no role has shows '-' |
| UserTable.RoleNameOfRole | src/sections/user/view/user-view.tsx:172-179 | with unique role ids, a user whose role id is `String(r.id)` shows r's name when it is set |
| UserTable.FindRoleStrict | src/sections/user/view/user-view.tsx:175 | the find with strict equality on the value the route returns: a role only for a text id, and then the same role as `FindRole` |
| UserTable.FindRoleAfterMiss | src/sections/user/view/user-view.tsx:175 | when the first role does not match, the find's answer is the rest's |
| UserTable.GetRoleNameAsWritten | src/sections/user/view/user-view.tsx:172-179 | never empty; on a text id it equals `GetRoleName` |
| UserTable.NumericRoleIdShowsDash | src/sections/user/view/user-view.tsx:272 | as written, a row whose role id is the number `GET /users` returns shows '-', whatever the roles |
| UserTable.GetRoleNameIntended | src/sections/user/view/user-view.tsx:172-179 | never empty, '-' for null, 0 or "", and equal to the as-written lookup on text ids |
| UserTable.RoleNameOfNumericRoleId | src/sections/user/view/user-view.tsx:172-179 | with unique ids, the intended lookup shows r's name for the numeric id `r.id`, where the as-written one shows '-' |
| UserTable.OrAbsent | src/sections/user/view/user-view.tsx:134 | left out exactly when the value is empty, else the value |
| UserTable.CreatePayload | src/sections/user/view/user-view.tsx:128-135 | the form's fields, with an empty avatar or role left out |
| UserTable.EditPayload | src/sections/user/view/user-view.tsx:136-142 | nickname, avatar and role as in create, no username, and a password exactly when one was typed |
| UserTable.EditKeepsPasswordUnlessTyped | src/sections/user/view/user-view.tsx:110-112 | an edit whose password field was left empty sends no password |

## Left out

- The preview-URL route (`GET /preview/:key`, backend/src/routes/r2.ts:230-244): it only formats a URL from the request's protocol and host, which are not modelled.
- The `console.log` lines of the proxy route and the CORS response headers: they have no effect on the state.
- The R2 binding is abstracted as `Bucket.Store`. Its listing is one nondeterministic valid page. Its etags and upload times come from a version counter, not from R2.
- `localeCompare` in the list sort is modelled as lexicographic order on the keys' characters, not a locale's collation. The sort order of `Listing.SortedValues` and `Listing.ListObjects` is therefore this order only.
- Strings are sequences of Unicode scalar values, while JavaScript's `length`, `substring` and `slice` count UTF-16 code units. The two differ only for characters outside the Basic Multilingual Plane.
- Finder.TruncateFileName: counts characters as Unicode scalar values, so a name holding characters outside the Basic Multilingual Plane is cut at other places than the source's UTF-16 positions.
- `toLowerCase` is ASCII only.
- `decodeURIComponent` and `encodeURIComponent` are function parameters. A decoding failure is `None`.
- Timestamps (`Date.now()`, `toISOString`) are parameters.
- The concurrent un-awaited uploads of `handleFileSelect` are not modelled. Each `uploadFile` runs alone, and the storage page's uploads run one after another, as the source awaits them.
- A failed single upload on the storage page is only logged, as in the source. The model's stores cannot fail such a write.
- Floating-point size formatting (`formatFileSize`) is not modelled.
- Progress rounding is exact integer rounding of `(i+1)·90/N`, rather than IEEE `Math.round`.
- JWT signing and verification are not modelled. The login reply carries the payload instead of a signed token, and the token's user is a parameter of the profile routes.
- SQL execution is not modelled. Tables are row sequences in table order.
- The `role_menu JOIN menus` result is taken in role-link order, then menu order. SQL leaves this order unspecified.
- The menus query's `ORDER BY menu_sort` is taken as the order of the given rows.
- The menu create, update and delete statements (backend/src/routes/menus.ts:129-196) are modelled only through the stored permission string, `Menus.StoredPermission`.
- The JSON transfer between the backend tree and the client's `Menu` is not modelled. Backend trees are id lists per parent (`Menus.Tree`); the client's menus are nested values (`NavMenus.Menu`). Only menus reachable from the roots are sent: a menu whose parentId is its own id, and two menus that name each other as parent, are pushed only into a cycle member's children list (backend/src/routes/menus.ts:73-77), so they and their descendants are missing from the reply.
- The Iconify element of a nav item is modelled as the icon name it shows.
- RoleView.RolePage.ChangeRowsPerPage and UserTable.Table.OnChangeRowsPerPage take the new size as a number. The `parseInt` of the select's value is left out, since its options are always 5, 10 or 25.
- Dialog open/close state, loading flags, drag-over highlighting and every other rendering detail are left out.
- The role and user create, update and delete requests are left out.
- The `useEffect` that reloads the listing when the path changes is folded into `StorageView.View.Navigate`.
- `handleDelete` and `handleDownload`'s fetch are not modelled beyond the routes they call and the download file name.
- R2Routes.Move: child keys use the corrected literal prefix swap `MovedKey`. The source's expansion of `$` patterns in the target key is modelled only by R2Routes.MovedKeyAsWritten (see Findings).
- R2Routes.MoveListed: uses the literal `MovedKey`, not the `$`-expanding `replace` as written (see Findings).
- R2Routes.MovedKeyOfPrefixed: is about the corrected literal swap. For a target holding `$`, the source's key is the one R2Routes.MovedKeyAsWritten gives.
- R2Routes.MoveChildrenEffect: the target keys are those of the literal swap. This differs from the source only when the target key holds `$`.
- R2Routes.MoveFolderRelocates: same as MoveChildrenEffect; it holds for the source as written only when the target key holds no `$`.
- R2Routes.MoveFolderKeepsOthers: same as MoveChildrenEffect; it holds for the source as written only when the target key holds no `$`.
- Listing.QueryLimit: the route passes `parseInt`'s raw result to R2. The model hands the store a limit normalised to 1..1000, with 1000 for a non-number or a value below 1. How R2 itself treats a limit outside that range is not modelled.
- FileUploader.Uploader.UploadFile: the only failure modelled is the part number above 10000. The store's requests cannot fail here: no 401/403, no failed init, part or complete request, and no transport error. So the error path of `catch` is reached only through that part.
- FileUploader.Uploader.UploadSmall: the single request always succeeds in the model, so its failure branch (an error entry with the reply's message) is not reached.
- Auth.UpdateProfile: a body field that is JSON `null` passes the source's `!== undefined` test and binds SQL NULL. The model's `Option` treats it as absent, so such a field adds no clause.
- UserTable.GetRoleName: its own contract states only that the result is non-empty. What it returns is stated by RoleNameMissing and RoleNameOfRole. It is the lookup on a text id, and agrees with the page as written only for text ids, which the route does not return.
- FileType.MimeFallback: its first clause states the corrected own-entry lookup; the as-written result is `Text(OctetStream)` only for extensions other than `constructor` and `__proto__`, as its second clause says.
- FileType.OutsideTable: This is the corrected lookup on the table's own entries. As written, the extensions `constructor` and `__proto__` read objects the table inherits, and the card icon then throws (see Findings).
- FileType.LongExtension: This is the corrected lookup on the table's own entries. As written, the extensions `constructor` and `__proto__` read objects the table inherits, and the card icon then throws (see Findings).
- FileType.MimeMajorType: This is the corrected lookup on the table's own entries. As written, the extensions `constructor` and `__proto__` read objects the table inherits, and the card icon then throws (see Findings).
- FileType.IconMatchesMimeMajorType: This is the corrected lookup on the table's own entries. As written, the extensions `constructor` and `__proto__` read objects the table inherits, and the card icon then throws (see Findings).
- FileType.ItemIconMatchesExtensionIcon: This is the corrected lookup on the table's own entries. As written, the extensions `constructor` and `__proto__` read objects the table inherits, and the card icon then throws (see Findings).
- Finder.CardIconByExtension: This is the corrected lookup on the table's own entries. As written, the extensions `constructor` and `__proto__` read objects the table inherits, and the card icon then throws (see Findings). Finder.CardIconAsWritten equals it wherever it does not throw.
- Finder.TruncationKeepsIcon: This is the corrected lookup on the table's own entries. As written, the extensions `constructor` and `__proto__` read objects the table inherits, and the card icon then throws (see Findings). As written, truncation can reach `constructor` from a name that renders (Finder.TruncationReachesInherited).
- Finder.ItemIconWithoutContentType: This is the corrected lookup on the table's own entries. As written, the extensions `constructor` and `__proto__` read objects the table inherits, and the card icon then throws (see Findings).
- UserTable.RoleNameOfRole: takes the role id as text. `GET /users` returns the integer column, and the page compares it strictly with text, so every row shows '-' as written (UserTable.NumericRoleIdShowsDash, see Findings). With a numeric id the property holds for the intended lookup only (UserTable.RoleNameOfNumericRoleId).

## Findings

| source | as written | input that shows it | evidently intended | confidence | as-written member | corrected member |
|---|---|---|---|---|---|---|
| src/sections/r2-storage/components/finder-view.tsx:676 | the parent of a folder key is taken up to its last `/`, which is the folder's own trailing slash | renaming folder `docs/` to `notes` targets `docs/notes/` | the folder is renamed in place, to `notes/` | high (not executed) | Finder.RenameFolderAsWrittenNests | Finder.RenameFolderKeepsParent |
| src/sections/r2-storage/components/finder-view.tsx:677 | a rename to the unchanged name still issues the move | renaming file `a.txt` to `a.txt` copies it onto itself, then deletes `a.txt` | no move when the key would not change | high (not executed) | Finder.RenameUnchangedAsWrittenDeletes | Finder.RenameUnchangedIsIgnored |
| src/sections/r2-storage/view/r2-storage-view.tsx:124 | handleRename takes a folder's parent the same way; the handler is passed to FinderView, which never calls it, so the defect is latent | `handleRename("docs/", "notes")` moves to `docs/notes/` | the folder is renamed in place, to `notes/` | high (not executed) | StorageView.RenamePathAsWrittenNests | StorageView.RenamePathKeepsParent |
| backend/src/routes/r2.ts:382 | each child's new key comes from `replace` with a string replacement, which expands `$&`, `$$`, `` $` `` and `$'` in the target folder's name | moving folder `a/` to `b$&/` sends `a/x` to `ba//x` | the child's key with its leading `fromKey` swapped for `toKey` as written | medium (not executed) | R2Routes.MovedKeyAsWrittenExpands | R2Routes.MovedKeyOfPrefixed |
| src/utils/file-type.ts:59 | `mimeTypes[ext] \|\| 'application/octet-stream'` reads a plain object literal, so the inherited `constructor` and `__proto__` are found, are truthy, and are returned as non-strings; getFileIcon then calls `split` on them (file-type.ts:106) and the card render at finder-view.tsx:437 throws | a file `x.constructor` with no stored content type; or the dot-free `aaaaaaaaaaaaaaaaaaaaconstructor`, whose truncation ends in `...constructor` | only the table's own entries count, so both get octet-stream and the plain file icon | high (not executed) | Finder.InheritedExtensionThrows | FileType.MimeFallback |
| src/sections/user/view/user-view.tsx:175 | `String(r.id) === roleId` compares text with the row's `role_id`, which `GET /users` returns as the integer the column holds (backend/src/routes/users.ts:13); strict equality between a string and a number is always false | a user with `role_id` 2 and a role `{ id: 2, name: "admin" }` shows '-' | compare `String(r.id) === String(roleId)`, as the edit dialog converts it (user-view.tsx:114), and show the role's name | medium (not executed) | UserTable.NumericRoleIdShowsDash | UserTable.RoleNameOfNumericRoleId |

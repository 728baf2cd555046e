# Hero catalogue data shaping, in Dafny

This project models the in-memory data shaping of a small Mobile Legends hero
catalogue (a Next.js app backed by a hosted database):

- the public **tier list**, which folds heroes into one bucket per tier under an
  optional role filter, renders the tiers in the order S, A, B, C, D, skips empty
  buckets, and toggles the role filter from a row of badges;
- the **hero detail dialog**, which folds a hero's skills into one bucket per skill
  type, shows one tab per type in first-occurrence order with the first tab as
  default, and picks badge styles and icons through lookups with fallbacks;
- the dashboard **hero table**, which reshapes joined store rows into `Hero` records
  (the nested role name, or "Unknown") and filters them by a case-insensitive
  substring search on name, role or tier;
- the **image picker**, which accepts a file only if its MIME type is on a fixed
  allow-list and its size is at most 5 MiB, and keeps a preview;
- the **create-hero dialog**, which edits a five-field form, checks the required
  fields, resolves the role, uploads the image under
  `hero-images/hero-<timestamp>.<extension>`, inserts the row and resets the form.

Modules follow the source files: `Types` (lib/types.ts), `TierList`,
`HeroDetailDialog`, `Heroes`, `HeroImageUpload`, `HeroCreateDialog`. They share
`Wrappers` (`Option` for `null` and optional fields), `Seqs` (an order-preserving
filter, subsequences, how per-key bucket sizes add up) and `JsString` (the
JavaScript string operations used: `toLowerCase` on ASCII, `includes`, `split`,
decimal rendering of a number).

The two folding `reduce`s are methods with loop invariants, proved against
specification functions (`Grouped`, `SkillsByType`, `TabKeys`). Lemmas then prove
what the screens rely on about those functions: membership, multiplicity, order
and bucket sizes. The React state of the tier list, image picker and create dialog
is modelled as classes whose methods update fields. Store answers and the clock
are parameters of those methods.

## Model

| member | source | states |
|---|---|---|
| Types.SkillTypeOfTag | lib/types.ts:29 | a tag string names a skill type exactly when it is one of the six tags, and then names the type with that tag |
| Types.TagInjective | lib/types.ts:29 | every tag reads back as its own skill type, so two types with the same tag are the same type |
| Types.SkillTagsAreSix | lib/types.ts:29 | the skill type is a closed set of exactly six distinct tags |
| TierList.TierOrderComplete | components/TierList.tsx:38 | every tier appears in the display order |
| TierList.Keeps | components/TierList.tsx:31 | with no role selected, or the empty role (falsy in JavaScript), every hero is kept; otherwise a hero is kept iff its role is the selected one |
| TierList.GroupHeroes | components/TierList.tsx:26-36 | the reduce yields a bucket for every tier that occurs, holding that tier's heroes that pass the role filter, in input order |
| TierList.AbsentTierBucket | components/TierList.tsx:27-29 | a tier no hero has has no heroes in its bucket |
| TierList.TiersOfSnoc | components/TierList.tsx:27-29 | each hero's tier gets a bucket, whether or not the hero is kept |
| TierList.BucketSnoc | components/TierList.tsx:31-33 | a hero is appended to its own tier's bucket exactly when it passes the filter; other buckets do not change |
| TierList.GroupedMembership | components/TierList.tsx:27-33 | a bucket exists iff some hero has that tier; a hero is in a bucket iff it is that tier's and passes the role filter `Keeps` (no selection, the empty selection, or exact role equality) |
| TierList.GroupedMultiplicity | components/TierList.tsx:26-36 | a kept hero occurs in its own bucket as often as in the input, and in no other bucket |
| TierList.GroupedKeepsOrder | components/TierList.tsx:26-36 | each bucket is a subsequence of the input |
| TierList.GroupedSizes | components/TierList.tsx:26-36 | bucket sizes over S..D add up to the number of kept heroes, and to all heroes when no role is selected |
| TierList.RenderedTiers | components/TierList.tsx:72-73 | the rendered tiers are exactly those with a non-empty bucket, in strictly increasing S..D order |
| TierList.HeroDataTankGrouping | components/TierList.tsx:17-36 | on the built-in list with "Tank" selected, S holds only Khufra and A exists but is empty |
| TierList.HeroDataTankRendering | components/TierList.tsx:72-73 | in that case S is rendered and the empty A bucket is not |
| TierList.Toggle | components/TierList.tsx:59 | clicking the selected role clears the selection; clicking any other role selects it |
| TierList.ToggleTwice | components/TierList.tsx:59 | from an empty or same-role selection, two clicks restore it |
| TierList.TierListState.constructor | components/TierList.tsx:24 | the selection starts empty |
| TierList.TierListState.ClickRole | components/TierList.tsx:54-59 | a badge click applies the toggle and keeps the selection null or one of the six badges |
| TierList.TierListState.Grouping | components/TierList.tsx:26-36 | the grouping shown is the specified grouping under the current selection |
| TierList.ValidSelectionFilter | components/TierList.tsx:31 | under a reachable selection, a hero is kept iff nothing is selected or its role equals the selection |
| HeroDetailDialog.SkillsOf | components/dashboard/HeroDetailDialog.tsx:22 | a hero without skills has an empty skill list |
| HeroDetailDialog.FirstIndex | components/dashboard/HeroDetailDialog.tsx:48-57 | the position of the first skill of a type: that skill has the type and no earlier one does |
| HeroDetailDialog.AbsentTypeBucket | components/dashboard/HeroDetailDialog.tsx:50-52 | a type no skill has has no skills |
| HeroDetailDialog.SkillsByTypeSnoc | components/dashboard/HeroDetailDialog.tsx:48-55 | one reduce step appends the skill to its type's bucket, creating the bucket if missing |
| HeroDetailDialog.GroupSkillsByType | components/dashboard/HeroDetailDialog.tsx:48-57 | the reduce yields the per-type buckets, and its keys in insertion order are `TabKeys` |
| HeroDetailDialog.TabKeysIsTabOrder | components/dashboard/HeroDetailDialog.tsx:48-57 | the insertion-order keys are exactly the types present, ordered by first occurrence |
| HeroDetailDialog.TabOrderUnique | components/dashboard/HeroDetailDialog.tsx:57 | there is only one such tab order |
| HeroDetailDialog.TabOrderDistinct | components/dashboard/HeroDetailDialog.tsx:57 | no tab is listed twice |
| HeroDetailDialog.SkillsByTypeMultiplicity | components/dashboard/HeroDetailDialog.tsx:48-55 | a bucket exists iff a skill has that type; each skill occurs in its type's bucket as often as in the input, and nowhere else |
| HeroDetailDialog.SkillsByTypeKeepsOrder | components/dashboard/HeroDetailDialog.tsx:48-55 | each bucket keeps input order |
| HeroDetailDialog.SkillBucketSizes | components/dashboard/HeroDetailDialog.tsx:48-55 | bucket sizes over the tabs add up to the number of skills |
| HeroDetailDialog.TabOrderEmpty | components/dashboard/HeroDetailDialog.tsx:57-58 | there are tabs exactly when there are skills |
| HeroDetailDialog.DefaultTab | components/dashboard/HeroDetailDialog.tsx:58 | the default tab is `""` iff there are no tabs; otherwise it is a tag that reads back as the first tab's skill type |
| HeroDetailDialog.DefaultTabIsFirstType | components/dashboard/HeroDetailDialog.tsx:58 | the default tab is `""` with no skills, else the type tag of the first skill |
| HeroDetailDialog.BaseRoleStyle | components/dashboard/HeroDetailDialog.tsx:32-42 | a known role gets its colour; the gray style is returned exactly for unknown roles |
| HeroDetailDialog.RoleBadgeStyle | components/dashboard/HeroDetailDialog.tsx:41-46 | the style starts with the base style, and is longer, by exactly " font-semibold border-2", iff the role is primary |
| HeroDetailDialog.RoleBadgeStylePrimary | components/dashboard/HeroDetailDialog.tsx:41-46 | primary and plain badges of a role differ; an unknown role's plain badge is gray |
| HeroDetailDialog.SkillIcon | components/dashboard/HeroDetailDialog.tsx:67-70 | the star iff the type is "passive", otherwise the bolt |
| HeroDetailDialog.SkillIconOfType | components/dashboard/HeroDetailDialog.tsx:67-70 | among the six types only the passive gets the star |
| HeroDetailDialog.TierBadgeStyle | components/dashboard/HeroDetailDialog.tsx:80 | a known tier gets its colour; the fallback is returned exactly for other tier strings |
| HeroDetailDialog.TierColorsKnown | components/dashboard/HeroDetailDialog.tsx:24-30 | exactly S, A, B, C, D have colours, and no two share one |
| Heroes.NestedRole | components/dashboard/Heroes.tsx:43 | the role is never empty; it is "Unknown" when the nested object or name is missing or empty, and the nested name itself whenever it is present and non-empty |
| Heroes.ToHero | components/dashboard/Heroes.tsx:41-44 | every scalar field is copied unchanged and the role is the nested role |
| Heroes.ToHeroFromHero | components/dashboard/Heroes.tsx:41-44 | a hero with a non-empty role survives nesting and reshaping unchanged |
| Heroes.FromHeroToHero | components/dashboard/Heroes.tsx:41-44 | a row is recovered from its hero iff its nested role name is present and non-empty |
| Heroes.ReshapeRows | components/dashboard/Heroes.tsx:41-44 | one hero per row, same count and order |
| Heroes.Matches | components/dashboard/Heroes.tsx:57-59 | the empty term matches every hero, and a match needs one of name, role or tier to be at least as long as the term |
| Heroes.SearchHeroes | components/dashboard/Heroes.tsx:56-60 | a hero is shown iff it is in the table and matches the term |
| Heroes.MatchesIffOccurs | components/dashboard/Heroes.tsx:57-59 | a hero matches iff the lower-cased term occurs at some position of the lower-cased name, role or tier |
| Heroes.SearchEmptyTerm | components/dashboard/Heroes.tsx:56-60 | an empty term shows every hero, in order |
| Heroes.SearchKeepsOrder | components/dashboard/Heroes.tsx:56 | the shown heroes are a subsequence of the table |
| Heroes.SearchIgnoresTermCase | components/dashboard/Heroes.tsx:57-59 | upper- or lower-casing the term does not change the result |
| Heroes.MatchesIgnoresFieldCase | components/dashboard/Heroes.tsx:57-59 | upper-casing a hero's name, role and tier does not change whether it matches |
| JsString.ToLower | components/dashboard/Heroes.tsx:57 | same length, no capitals left, only capitals change, and each capital becomes its own small letter (code point plus 32) |
| JsString.ToLowerIdempotent | components/dashboard/Heroes.tsx:57-59 | lower-casing twice is lower-casing once |
| JsString.Includes | components/dashboard/Heroes.tsx:57-59 | the empty needle is always included, and a needle longer than the text never is |
| JsString.IncludesIffOccurs | components/dashboard/Heroes.tsx:57-59 | `includes` holds iff the needle occurs at some position |
| JsString.Split | components/dashboard/HeroCreateDialog.tsx:70 | at least one part, no part contains the separator, and one part exactly when the separator is absent |
| JsString.JoinSplit | components/dashboard/HeroCreateDialog.tsx:70 | joining the parts back gives the original name |
| JsString.SplitLastIsTail | components/dashboard/HeroCreateDialog.tsx:70 | the last part is the suffix after the last separator, or the whole text |
| JsString.NatToString | components/dashboard/HeroCreateDialog.tsx:71 | at least one character, all decimal digits, and a leading `0` exactly for the number zero |
| JsString.NatToStringRoundTrip | components/dashboard/HeroCreateDialog.tsx:71 | the decimal rendering of the timestamp reads back as the same number |
| HeroImageUpload.ValidateImage | components/dashboard/HeroImageUpload.tsx:20-36 | accepted iff the type is one of the five and the size is at most 5 MiB; a type error iff the type is not listed; too large iff listed and over the limit |
| HeroImageUpload.SizeLimitBoundary | components/dashboard/HeroImageUpload.tsx:28 | exactly 5242880 bytes passes, 5242881 is too large |
| HeroImageUpload.TypeCheckedFirst | components/dashboard/HeroImageUpload.tsx:21-26 | an unlisted type is a type error whatever the size |
| HeroImageUpload.TypeMatchIsCaseSensitive | components/dashboard/HeroImageUpload.tsx:21 | "IMAGE/PNG" is refused while "image/png" passes the type check |
| HeroImageUpload.ImagePicker.constructor | components/dashboard/HeroImageUpload.tsx:18 | no preview at first |
| HeroImageUpload.ImagePicker.HandleImageSelect | components/dashboard/HeroImageUpload.tsx:38-48 | no file: nothing changes; accepted: the preview is set and the file is passed to the parent once; rejected: the input is cleared and the preview and parent are untouched |
| HeroImageUpload.ImagePicker.HandleRemoveImage | components/dashboard/HeroImageUpload.tsx:50-52 | the preview is cleared and nothing else changes; the parent is not told |
| HeroCreateDialog.FieldOfName | components/dashboard/HeroCreateDialog.tsx:20-26 | each of the five property names selects its own field; any other name selects none |
| HeroCreateDialog.Set | components/dashboard/HeroCreateDialog.tsx:186-189 | the chosen field takes the value; every other field keeps its own |
| HeroCreateDialog.WithInput | components/dashboard/HeroCreateDialog.tsx:92-98 | the field named by the event takes the value; every other field keeps its own |
| HeroCreateDialog.WithInputOverwrites | components/dashboard/HeroCreateDialog.tsx:92-98 | two changes to one input keep only the last value |
| HeroCreateDialog.WithInputSameValue | components/dashboard/HeroCreateDialog.tsx:92-98 | writing back a field's own value leaves the form unchanged |
| HeroCreateDialog.RequiredFieldsPresent | components/dashboard/HeroCreateDialog.tsx:103 | the check passes iff the name, role and tier fields are all non-empty, so the empty form never passes |
| HeroCreateDialog.EmptyFormIncomplete | components/dashboard/HeroCreateDialog.tsx:145-152 | every field of the reset form is empty, so it fails the required check |
| HeroCreateDialog.FileExtension | components/dashboard/HeroCreateDialog.tsx:70 | a dot-free suffix of the name: the whole name without a dot, else the text after the last dot |
| HeroCreateDialog.ExtensionUnique | components/dashboard/HeroCreateDialog.tsx:70 | that description fixes the extension uniquely |
| HeroCreateDialog.ExtensionAfterDot | components/dashboard/HeroCreateDialog.tsx:70 | whatever precedes the last dot, the dot-free text after it is the extension |
| HeroCreateDialog.StoragePath | components/dashboard/HeroCreateDialog.tsx:70-72 | the path starts with "hero-images/hero-" and ends with "." followed by the file's extension |
| HeroCreateDialog.StoragePathShape | components/dashboard/HeroCreateDialog.tsx:70-72 | the path starts with "hero-images/hero-" and has the same extension as the file name |
| HeroCreateDialog.StoragePathDigits | components/dashboard/HeroCreateDialog.tsx:71 | between the prefix and the "." before the extension, the path holds exactly the decimal digits of the timestamp |
| HeroCreateDialog.StoragePathDistinct | components/dashboard/HeroCreateDialog.tsx:70-78 | for one file name, two paths are equal iff their timestamps are, so an upload that does not overwrite never meets an earlier path |
| HeroCreateDialog.StoragePathWithoutDot | components/dashboard/HeroCreateDialog.tsx:70-72 | a name without a dot ends the path, after a dot, in full |
| HeroCreateDialog.UploadedUrl | components/dashboard/HeroCreateDialog.tsx:80-89 | a URL only for a successful upload with a non-empty public URL, and then that URL; otherwise null |
| HeroCreateDialog.InsertRow | components/dashboard/HeroCreateDialog.tsx:123-129 | the row carries the form's name and tier, the resolved role id and the image URL; the description is null iff empty |
| HeroCreateDialog.InsertRowDescription | components/dashboard/HeroCreateDialog.tsx:128 | reading the stored description back with an empty default gives the form's text |
| HeroCreateDialog.CreateDialog.constructor | components/dashboard/HeroCreateDialog.tsx:36-46 | empty form, no file, not submitting, dialog closed |
| HeroCreateDialog.CreateDialog.HandleInputChange | components/dashboard/HeroCreateDialog.tsx:92-98 | only the form changes, by the named-field update |
| HeroCreateDialog.CreateDialog.SelectRole | components/dashboard/HeroCreateDialog.tsx:184-189 | only the form's role changes |
| HeroCreateDialog.CreateDialog.SelectTier | components/dashboard/HeroCreateDialog.tsx:211-216 | only the form's tier changes |
| HeroCreateDialog.CreateDialog.OnImageSelect | components/dashboard/HeroCreateDialog.tsx:233-240 | the file is kept and the form's image URL becomes its object URL |
| HeroCreateDialog.CreateDialog.ResetForm | components/dashboard/HeroCreateDialog.tsx:145-155 | empty form, no file, dialog closed |
| HeroCreateDialog.CreateDialog.HandleSubmit | components/dashboard/HeroCreateDialog.tsx:100-143 | the outcome is "missing fields" iff a required field is empty, and stops everything and leaves `isSubmitting` alone; the outcome is "insert failed" iff the fields are present, the role is found and the insert reports an error; a failed role lookup stops before upload and insert; the upload (if a file is kept) uses the storage path, a failed upload gives a null URL and the insert still runs; success resets the form and notifies the parent once; `isSubmitting` is false after any submit that passed the check |

## Left out
- Heroes.ToHero: the spread `{...hero, role: …}` also carries the nested `roles` object onto each runtime hero; the `Hero` type does not declare it and the model omits it, so `ToHeroFromHero` and `FromHeroToHero` speak of the declared shape only.

- Store calls (role list, role lookup, hero list, upload, public URL, insert) are not modelled. Their answers are parameters of `HandleSubmit`, and the loaded rows are inputs of `ReshapeRows`.
- `Date.now()` is a parameter and `URL.createObjectURL` an opaque string parameter.
- Toasts, `console.error`, the `e.preventDefault()` call, the loading flag of the hero table and all rendering markup are not modelled.
- Error messages are not modelled: a failed submit reports `RoleNotFound` or `InsertFailed` instead of the thrown message.
- The layout, page, header, pagination and configuration files are not part of this model.
- JsString.ToLower: only ASCII letters change case; JavaScript's full Unicode case mapping is not modelled.
- HeroDetailDialog.BaseRoleStyle: the lookup is modelled on the six own keys of the colour object. Names inherited from JavaScript's object prototype (such as "constructor") are not modelled. The same holds for HeroDetailDialog.TierBadgeStyle.
- HeroDetailDialog.RoleBadgeStyle: the role badges read `hero.roles` with `name` and `isPrimary`, which the `Hero` type (lib/types.ts:14-23) does not declare. Only the `{name, isPrimary}` pair the style function needs is modelled, as `RoleBadge`.
- HeroCreateDialog.WithInput: an input name outside the five form fields adds an extra property to the JavaScript object. The model leaves the form unchanged in that case.
- HeroCreateDialog.CreateDialog.HandleSubmit: `isSubmitting` is true only while the store calls are pending. The model shows only the final value, since submits are not concurrent here.
- HeroCreateDialog.CreateDialog.HandleSubmit: `onHeroCreated` is optional; the model counts a notification even when no callback is given.
- HeroImageUpload.ImagePicker.HandleImageSelect: the browser sets the input's value before the change event; only the clearing on rejection is modelled.
- The refusal message says the image "must be less than 5MB", but the code accepts exactly 5 MiB. The model follows the code, which is inclusive.
- The tier list's skill-free `Hero` record and its built-in data are modelled as in the screen. Its tier is the closed set S..D, while the store's `tier` is any string.

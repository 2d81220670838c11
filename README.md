# Spektra core, modelled in Dafny

Spektra is a React engine for marketing sites. A project (Bellator, Baseline) hands it a
`SiteData` tree: the site, its theme, its pages made of typed sections, and its navigation.
The engine and the projects render that tree with section components. This model covers the
parts of the repository that have rules worth stating:

- the contact form's validation rule and its submit state machine (engine and Bellator copies);
- the gallery's category buttons, filtered grid and lightbox (both copies);
- the `create-project` scaffolder: its prompts and validators, the `.env` rewrite, the
  `pnpm-workspace.yaml` registration, the `package.json` rename, and the template copy that
  skips `node_modules`;
- the breaking-change guard run before an engine release;
- the data utilities `merge`, `deepMerge`, `validate`, `validateRequired`, `normalize` and
  `normalizeArray`;
- the text helpers `truncate` and `slugify`;
- the two `loadSiteData` loaders, which build the `SiteData` tree;
- small transforms in pages and components: navigation-click dispatch, icon lookup with a
  fallback, call-to-action derivation, hero titles with the last word highlighted, and the
  testimonial star rating.

Shared modules:

- `Wrappers` holds `Option`.
- `Strings` holds JavaScript's whitespace set and its `trim`, `split`, `join` and `includes`.
  It also holds the ASCII part of `toLowerCase`.
- `Seqs` holds the insertion order of a JavaScript `Set`, and subsequences.
- `Json` holds JSON-like values.
- `SiteData` holds the datatypes of `engine/packages/core/types/SiteData.ts`.

Stateful code is modelled imperatively:

- `ContactForm.ContactFormState` and `Gallery.GalleryView` are classes over the component's
  `useState` fields.
- The loops of `create-project`, `check-breaking.js`, `deepMerge` and `validateRequired` are
  methods with loop invariants. Each is proved equal to a specification function, and the
  properties are proved about that function.

Inputs the programs read from the outside world are parameters:

- an awaited `onSubmit` is its outcome;
- the typed prompt answers are a sequence of lines;
- a file is an optional string;
- a directory is a tree of entries;
- `git log` output is an optional string;
- `git diff` per file is a function;
- the page's elements are a set of selectors.

## Model

| member | source | states |
|---|---|---|
| ContactForm.ValidationErrors | engine/packages/core/components/sections/Contact.tsx:45-63 | name and message have an error exactly when blank after trim; a blank email gets the "required" error, otherwise the "invalid" error exactly when it is not well formed; the phone never has an error; each error carries its rule's message |
| ContactForm.EmailPatternMeaning | engine/packages/core/components/sections/Contact.tsx:54-56 | the email pattern accepts exactly the strings with no whitespace, one `@`, a non-empty local part, and a domain holding a `.` that is neither its first nor its last character |
| ContactForm.ValidIff | engine/packages/core/components/sections/Contact.tsx:46-63 | the form is valid exactly when name and message are not blank and the email is well formed |
| ContactForm.EmptyFormRejected | engine/packages/core/components/sections/Contact.tsx:69-78 | the cleared form left by a successful submit has errors on exactly name, email (required) and message |
| ContactForm.FormData.With | engine/packages/core/components/sections/Contact.tsx:86-89 | `{...prev, [field]: value}` changes the named field and no other |
| ContactForm.ErrorsAreMessages | engine/packages/core/components/sections/Contact.tsx:45-63 | every message `validate` records is non-empty, and the phone never gets one |
| ContactForm.ContactFormState.constructor | projects/bellator/components/sections/BellatorContact.tsx:34-42 | the form starts empty, without errors, not submitting and not in the success state |
| ContactForm.ContactFormState.Validate | engine/packages/core/components/sections/Contact.tsx:45-63 | replaces the whole error map by the fresh one and answers whether it is empty; nothing else changes |
| ContactForm.ContactFormState.HandleSubmit | engine/packages/core/components/sections/Contact.tsx:66-84 | an invalid form sends nothing and changes nothing but the errors; a valid one is sent once as it was; success clears all four fields and sets the success flag (Bellator's copy also schedules a reset); a throw keeps the data; `isSubmitting` ends false |
| ContactForm.ContactFormState.HandleChange | engine/packages/core/components/sections/Contact.tsx:86-92 | the named field takes the value, only that field's error is cleared, and nothing else changes |
| ContactForm.ContactFormState.DismissSuccess | projects/bellator/components/sections/BellatorContact.tsx:121 | the "Új üzenet" button leaves the success state without touching data or errors |
| ContactForm.ContactFormState.ResetTimerFires | projects/bellator/components/sections/BellatorContact.tsx:78 | the scheduled reset turns the success flag off and nothing else |
| Gallery.CategoryValues | engine/packages/core/components/sections/Gallery.tsx:45 | the truthy categories of the images, each non-empty, exactly those some image carries |
| Gallery.Categories | engine/packages/core/components/sections/Gallery.tsx:45 | `'all'` first, then each truthy image category exactly once, and nothing else |
| Gallery.CategoriesInFirstUseOrder | packages/core/components/sections/Gallery.tsx:45 | the category buttons come in the order of each category's first use |
| Gallery.AllCategoryRepeated | engine/packages/core/components/sections/Gallery.tsx:45 | an image whose category is literally `all` gives a second `'all'` button |
| Gallery.InCategory | engine/packages/core/components/sections/Gallery.tsx:48 | an order-preserving subsequence of the images holding every image of the category and only such images |
| Gallery.Shown | engine/packages/core/components/sections/Gallery.tsx:46-48 | under `'all'` the images unchanged; otherwise the order-preserving subsequence of images of that category, all of them |
| Gallery.InCategoryAppend | engine/packages/core/components/sections/Gallery.tsx:48 | the filter keeps every matching image as often as it occurs and in place: appending an image appends it to the result exactly when its category matches |
| Gallery.ShownAppend | engine/packages/core/components/sections/Gallery.tsx:46-48 | the grid keeps order and repeats: an appended image is shown once more exactly when the filter is `'all'` or its category |
| Gallery.FilterBarShownIff | engine/packages/core/components/sections/Gallery.tsx:102 | the filter bar appears exactly when categories are enabled and some image has a truthy category |
| Gallery.GalleryView.constructor | packages/core/components/sections/Gallery.tsx:42-43 | the filter starts at `'all'`, so every image is shown, and no image is selected |
| Gallery.GalleryView.SelectCategory | engine/packages/core/components/sections/Gallery.tsx:112 | a button click sets the filter to its category; the grid then shows all images or only that category's |
| Gallery.GalleryView.OpenImage | engine/packages/core/components/sections/Gallery.tsx:146 | clicking a shown image selects it |
| Gallery.GalleryView.CloseLightbox | engine/packages/core/components/sections/Gallery.tsx:170-177 | the backdrop or close button clears the selection and keeps the filter |
| ScaffoldPrompts.FolderPatternMeaning | scripts/create-project.ts:32-33 | `^[a-z0-9-]+$` matches exactly the non-empty strings of lower-case letters, digits and `-` |
| ScaffoldPrompts.ValidateFolderName | scripts/create-project.ts:28-34 | true exactly for a non-empty string of lower-case ASCII letters, digits and `-` |
| ScaffoldPrompts.DisplayNameAfterTrim | scripts/create-project.ts:19-38 | a typed display name is accepted exactly when it is not all whitespace |
| ScaffoldPrompts.TemplateChoice | scripts/create-project.ts:205-213 | a template is chosen exactly by its menu number or by its name in any ASCII letter case |
| ScaffoldPrompts.TemplateChoiceIgnoresCase | scripts/create-project.ts:205-208 | lower-casing the answer first never changes the template picked |
| ScaffoldPrompts.FirstAccepted | scripts/create-project.ts:158-194 | the first line whose trimmed text the question accepts, every earlier line being rejected |
| ScaffoldPrompts.Ask | scripts/create-project.ts:158-181 | a prompt loop returns the first accepted trimmed answer and the lines after it |
| ScaffoldPrompts.RunInterview | scripts/create-project.ts:153-214 | the three prompt loops in turn give the interview's answers |
| ScaffoldPrompts.InterviewOutcome | scripts/create-project.ts:158-194 | the folder name is valid and not taken, and the display name is non-empty with no whitespace at either end |
| EnvFile.Lookup | scripts/create-project.ts:99 | `Map.get`: defined exactly for the keys of the map |
| EnvFile.MapSet | scripts/create-project.ts:105-111 | `Map.set`: an existing key keeps its position and takes the new value, a new key goes last, and no other key changes |
| EnvFile.MapSetSame | scripts/create-project.ts:111 | setting a key to its current value leaves the map as it was |
| EnvFile.Apply | scripts/create-project.ts:102-106 | one parsed line keeps the map free of duplicate keys |
| EnvFile.CreateOrUpdateEnvFile | scripts/create-project.ts:87-120 | the loops parse the old file, set `VITE_SITE_NAME` and write `key=value` lines, each ended by a newline |
| EnvFile.SkippedLines | scripts/create-project.ts:101-102 | blank lines and `#` comments contribute no entry |
| EnvFile.ParseEntryLine | scripts/create-project.ts:103-105 | a written `key=value` line parses back to its entry, inner `=` of the value kept |
| EnvFile.ParseLineWellFormed | scripts/create-project.ts:100-108 | every entry read from a line has a non-empty trimmed key without `=` and a value with no trailing whitespace |
| EnvFile.ParseLinesWellFormed | scripts/create-project.ts:97-108 | whatever the file held, the parsed map is well formed |
| EnvFile.ParseEntryLines | scripts/create-project.ts:100-108 | parsing the lines written for a well-formed map gives the map back |
| EnvFile.RenderSplits | scripts/create-project.ts:114-119 | the written file splits into one line per entry followed by an empty piece |
| EnvFile.RenderRoundTrip | scripts/create-project.ts:97-119 | parsing a rendered well-formed map gives back the same ordered map |
| EnvFile.TrimmedLineIsEnvValue | scripts/create-project.ts:19 | a trimmed typed answer is a value that survives a write and a read |
| EnvFile.UpdateSetsSiteName | scripts/create-project.ts:111-119 | reading the written file gives `VITE_SITE_NAME` the display name and every other key its old value, in its old place |
| EnvFile.UpdatedWellFormed | scripts/create-project.ts:111 | the updated map stays well formed |
| EnvFile.UpdateIdempotent | scripts/create-project.ts:87-120 | running the update again with the same name writes the same file |
| WorkspaceConfig.FindPackagesLine | scripts/create-project.ts:141 | the first line whose trim is `packages:`, or none when no line is |
| WorkspaceConfig.InsertAfter | scripts/create-project.ts:144 | `splice(i + 1, 0, entry)`: the entry right after line `i`, every other line kept in order |
| WorkspaceConfig.WrittenIff | scripts/create-project.ts:126-146 | the file is written exactly when it exists, lacks the entry, and has a `packages:` line |
| WorkspaceConfig.UpdateIdempotent | scripts/create-project.ts:136-137 | running the registration on the file it wrote writes nothing |
| WorkspaceConfig.InsertAfterWithout | scripts/create-project.ts:144-145 | inserting a line without a newline keeps every line free of one |
| WorkspaceConfig.InsertedAfterPackages | scripts/create-project.ts:141-145 | the written lines are the old ones with the entry inserted right after the first `packages:` line |
| TemplateCopy.CopyDirectoryRecursive | scripts/create-project.ts:44-67 | the copy loop creates exactly the copied tree |
| TemplateCopy.HasFileAppend | scripts/create-project.ts:51-65 | a file is in a listing plus one entry exactly when it is in the listing or in that entry |
| TemplateCopy.CopiedFiles | scripts/create-project.ts:44-67 | the copy holds exactly the source's files, same path and content, whose path has no `node_modules` |
| TemplateCopy.CopyOfFreeTree | scripts/create-project.ts:53-55 | no `node_modules` survives at any depth, and a tree without one is copied unchanged |
| TemplateCopy.CopyIsFree | scripts/create-project.ts:53-55 | no entry of the copy, at any depth, is named `node_modules` |
| TemplateCopy.CopyOfFreeIsIdentity | scripts/create-project.ts:44-67 | a tree with no `node_modules` anywhere is copied unchanged |
| PackageJson.UpdatePackageJson | scripts/create-project.ts:69-85 | a missing file is only warned about; on an object only `name` changes, to the folder name; an array is written back unchanged; any other document throws |
| PackageJson.UpdateIdempotent | scripts/create-project.ts:77-79 | renaming an already renamed document writes the same document |
| BreakingGuard.MarkerDetected | engine/scripts/check-breaking.js:25-62 | a message holding any marker is flagged |
| BreakingGuard.DetectionIgnoresCase | engine/scripts/check-breaking.js:59-61 | the ASCII letter case of a message does not change whether it is flagged |
| BreakingGuard.WithoutBNotFlagged | engine/scripts/check-breaking.js:25-62 | a message without any `b` or `B` holds no marker and is not flagged |
| BreakingGuard.FeatBangNotDetected | engine/scripts/check-breaking.js:25-30 | the `feat!:` form the advice recommends is not itself detected |
| BreakingGuard.Commits | engine/scripts/check-breaking.js:35-53 | a failed `git log` gives no commits; otherwise the non-empty lines of the trimmed output, each holding no newline |
| BreakingGuard.NonEmpty | engine/scripts/check-breaking.js:48 | `filter(Boolean)`: the non-empty lines, all of them, as an order-preserving subsequence of the lines |
| BreakingGuard.NonEmptyAppend | engine/scripts/check-breaking.js:48 | the filter keeps every non-empty line as often as it occurs: an appended line is appended exactly when it is non-empty |
| BreakingGuard.ParseCommitAtFirstBar | engine/scripts/check-breaking.js:118-119 | a line splits at its first `|`: the hash before it, the rest, inner bars kept, as the message |
| BreakingGuard.LineWithoutBarNotFlagged | engine/scripts/check-breaking.js:118-121 | a body line without `|` has an empty message and is never flagged |
| BreakingGuard.ShortHash | engine/scripts/check-breaking.js:124 | the first seven characters of the hash, or all of a shorter one |
| BreakingGuard.Reports | engine/scripts/check-breaking.js:117-128 | at most one report per commit, and none exactly when no commit is flagged |
| BreakingGuard.ReportShowsWholeMessage | engine/scripts/check-breaking.js:125 | a commit line holds no newline, so the report shows its whole message |
| BreakingGuard.FindBreakingCommits | engine/scripts/check-breaking.js:117-128 | the loop reports the flagged commits, and `hasBreaking` holds exactly when some commit is flagged |
| BreakingGuard.CriticalChangedIff | engine/scripts/check-breaking.js:67-97 | true exactly when some present critical file, with every earlier present one read without error, shows a non-empty diff |
| BreakingGuard.CheckCriticalFileChanges | engine/scripts/check-breaking.js:67-97 | the loop with its skip, early return and catch answers the critical-change rule for the three critical files |
| BreakingGuard.RunGuard | engine/scripts/check-breaking.js:102-154 | exit 1 exactly when there are commits, a critical file changed and no commit was flagged; otherwise exit 0 |
| BreakingGuard.FailsOpen | engine/scripts/check-breaking.js:49-96 | with no critical file present nothing has changed, and a failed `git log` gives no commits |
| DataMerge.AllKeys | engine/packages/data-utils/merge.ts:6-10 | a key is in the union exactly when some object has it |
| DataMerge.LastWith | engine/packages/data-utils/merge.ts:6-10 | the last object having a key has it, and no later object does |
| DataMerge.Merge | engine/packages/data-utils/merge.ts:6-10 | the keys are the union of all keys; each value comes from the last object having the key |
| DataMerge.MergeFewArguments | engine/packages/data-utils/merge.ts:7-9 | `merge()` is `{}` and `merge(x)` is `x` |
| DataMerge.MergeKeys | engine/packages/data-utils/merge.ts:16-25 | the accumulator after some of the incoming keys: those keys merged, every other key untouched |
| DataMerge.MergeInto | engine/packages/data-utils/merge.ts:16-25 | keys are the union; an incoming non-object overwrites; two plain objects merge recursively; untouched keys keep their values |
| DataMerge.MergeIntoAcc | engine/packages/data-utils/merge.ts:16-25 | the key loop, recursing on nested plain objects, computes the merge into the accumulator |
| DataMerge.DeepMerge | engine/packages/data-utils/merge.ts:12-28 | the loop over the arguments computes the fold of merges into `{}` |
| DataMerge.MergeIntoEmpty | engine/packages/data-utils/merge.ts:20-21 | merging into an empty object copies the incoming object |
| DataMerge.NestedCallIsMergeInto | engine/packages/data-utils/merge.ts:21 | the recursive `deepMerge(acc[k], obj[k])` call equals merging `obj[k]` into `acc[k]` |
| DataMerge.LastNonObjectWins | engine/packages/data-utils/merge.ts:16-24 | the result has the union of keys, and a key whose last value is not a plain object takes that value |
| DataMerge.DeepMergeOfFlatIsMerge | engine/packages/data-utils/merge.ts:6-28 | on objects without nested plain objects, `deepMerge` and `merge` agree |
| DataMerge.MergeIntoSelf | engine/packages/data-utils/merge.ts:15-27 | merging an object into itself gives it back at every depth, so `deepMerge(x, x)` equals `x` |
| DataValidate.Validate | engine/packages/data-utils/validate.ts:11-23 | valid exactly when the data is truthy, and then without errors; otherwise the one null-data error; the schema is ignored |
| DataValidate.Missing | engine/packages/data-utils/validate.ts:28-32 | the required fields that are absent or null, in field order, and all of them |
| DataValidate.Errors | engine/packages/data-utils/validate.ts:30 | one `Required field "<f>" is missing` message per missing field, in order |
| DataValidate.MissingAppend | engine/packages/data-utils/validate.ts:28-32 | one more field adds its error exactly when it is missing |
| DataValidate.NothingMissingIff | engine/packages/data-utils/validate.ts:28-35 | no field is reported missing exactly when every required field is given |
| DataValidate.ErrorsStep | engine/packages/data-utils/validate.ts:28-32 | each field of the loop adds its message exactly when it is absent, `null` or `undefined` |
| DataValidate.ValidateRequired | engine/packages/data-utils/validate.ts:25-38 | the loop reports exactly the missing fields' messages in order; valid exactly when no field is missing; at most one error per field |
| DataNormalize.Normalize | engine/packages/data-utils/normalize.ts:6-9 | the data comes back unchanged |
| DataNormalize.NormalizeArray | engine/packages/data-utils/normalize.ts:11-13 | same length, each element kept in its place |
| DataNormalize.NormalizeArrayKeeps | engine/packages/data-utils/normalize.ts:11-13 | the array comes back unchanged whatever the schema; `[]` gives `[]` |
| TextHelpers.Truncate | packages/core/utils/helpers.ts:16-19 | a text that fits comes back unchanged; a longer one is cut to the length and ends in `...` |
| TextHelpers.TruncateIdempotent | packages/core/utils/helpers.ts:16-19 | truncating an already truncated text again to the same length changes nothing |
| TextHelpers.StripSymbols | packages/core/utils/helpers.ts:29 | only word characters, whitespace and `-` remain, and a text made only of those is unchanged |
| TextHelpers.Collapse | packages/core/utils/helpers.ts:30-31 | the scan never lengthens the text, and it yields nothing only for an empty text or a text that merely continues a run |
| TextHelpers.RunContinues | packages/core/utils/helpers.ts:30-31 | inside a run, further run characters add nothing, and the scan resumes at the first character outside the run |
| TextHelpers.RunCollapses | packages/core/utils/helpers.ts:30-31 | a run followed by other text becomes one `-` before that text |
| TextHelpers.CollapseKeeps | packages/core/utils/helpers.ts:29-31 | the scan adds no new kind of character, and scanning whitespace runs leaves no whitespace |
| TextHelpers.ReplaceRunsKeeps | packages/core/utils/helpers.ts:29-31 | after the symbol filter, collapsing runs leaves only word characters, `-` and (for hyphen runs) the whitespace already there; collapsing whitespace runs leaves none |
| TextHelpers.CollapseNoDoubleHyphen | packages/core/utils/helpers.ts:31 | scanning hyphen runs never puts two hyphens side by side, and inside a run never starts with one |
| TextHelpers.ReplaceRunsNoDoubleHyphen | packages/core/utils/helpers.ts:31 | after collapsing hyphen runs no two hyphens are adjacent |
| TextHelpers.CollapseUnchanged | packages/core/utils/helpers.ts:30-31 | a text whose run characters are isolated hyphens passes the scan unchanged |
| TextHelpers.ReplaceRunsUnchanged | packages/core/utils/helpers.ts:30-31 | a text whose run characters are isolated hyphens is left as it is |
| TextHelpers.SlugOfShape | packages/core/utils/helpers.ts:29-32 | after the Unicode folding, the slug holds only word characters and `-`, never two adjacent hyphens, and the final trim removes nothing |
| TextHelpers.SlugShape | packages/core/utils/helpers.ts:24-33 | a slug holds only word characters and `-`, so no whitespace, never two adjacent hyphens, and the final trim removes nothing |
| TextHelpers.SpacedLetter | packages/core/utils/helpers.ts:29-32 | after the Unicode folding, `" a "` gives `"-a-"` |
| TextHelpers.EdgeHyphensKept | packages/core/utils/helpers.ts:30-32 | `" a "` becomes `"-a-"`: the final trim leaves the edge hyphens |
| TextHelpers.SlugOfIdempotent | packages/core/utils/helpers.ts:29-32 | applying the steps after the Unicode folding to their own result changes nothing |
| TextHelpers.SlugifyIdempotent | packages/core/utils/helpers.ts:24-33 | slugifying a slug gives it back, when the Unicode folding leaves the slug alone |
| SiteData.SectionIdInjective | projects/bellator/src/data/loaders/loadSiteData.ts:64-99 | different section kinds give different `<type>-section` ids |
| SiteData.MakeSection | engine/packages/core/types/SiteData.ts:35-39 | a section with the kind, the id `<type>-section` and the payload |
| SiteData.Kinds | engine/packages/core/types/SiteData.ts:35-39 | the kinds of the sections, in order |
| SiteData.UniqueKindsGiveUniqueIds | projects/baseline/src/data/loaders/loadSiteData.ts:59-91 | sections of pairwise different kinds whose ids follow their kinds have pairwise different ids |
| SiteData.WithProperty | projects/bellator/src/data/loaders/loadSiteData.ts:95-99 | `{...block, key: value}`: the block's keys plus the key, which takes the value; other properties kept |
| BellatorLoader.Navigation | projects/bellator/src/data/loaders/loadSiteData.ts:104-107 | one item per link, in order, with its label and href only |
| BellatorLoader.LoadSiteData | projects/bellator/src/data/loaders/loadSiteData.ts:23-111 | one `home` page titled by the home meta title, seven sections in order with ids `<type>-section`, unique, each holding its content block, contact plus `contactInfo`; theme `base` with `#FFB100` and `#000000` |
| BellatorLoader.GetBellatorContent | projects/bellator/src/data/loaders/loadSiteData.ts:120-122 | the content itself |
| BellatorLoader.ContactSectionCarriesSiteContact | projects/bellator/src/data/loaders/loadSiteData.ts:95-99 | the contact section holds the site's contact as `contactInfo` and every other contact property unchanged |
| BaselineLoader.PageTitle | projects/baseline/src/data/loaders/loadSiteData.ts:54 | the name, then ` - `, then the description |
| BaselineLoader.LoadSiteData | projects/baseline/src/data/loaders/loadSiteData.ts:26-97 | one `home` page titled `<name> - <description>`, five sections in order with unique ids, gallery plus `images`, contact plus `contactInfo`; theme colors and fonts from the site configuration; navigation unchanged |
| BaselineLoader.GetBaselineData | projects/baseline/src/data/loaders/loadSiteData.ts:103-109 | the three configurations, unchanged |
| BaselineLoader.SectionsCarryConfiguration | projects/baseline/src/data/loaders/loadSiteData.ts:76-89 | the gallery section holds the configured images and the contact section the site's contact, each beside the block's other properties |
| GalleryPage.IconMap | projects/baseline/src/pages/GalleryPage.tsx:39-44 | an icon found by a name has that name |
| GalleryPage.IconFor | projects/baseline/src/pages/GalleryPage.tsx:60 | the icon of that name, and `Sparkles` for a name no icon has |
| GalleryPage.Features | projects/baseline/src/pages/GalleryPage.tsx:59-65 | one item per feature, in order, text copied, icon looked up with the fallback |
| GalleryPage.ToAction | projects/baseline/src/pages/GalleryPage.tsx:70-83 | a present action becomes a button with its text, href and the slot's variant; an absent one gives none |
| GalleryPage.DeriveActions | projects/baseline/src/pages/GalleryPage.tsx:68-85 | no actions without action content; otherwise each button present exactly when its content is |
| GalleryPage.ActionsRoundTrip | projects/baseline/src/pages/GalleryPage.tsx:68-85 | reading back the buttons' captions and targets gives the action content; each button has its slot's variant |
| LandingPage.HandleNavClick | projects/baseline/src/pages/LandingPage.tsx:74-86 | navigates exactly for hrefs starting with `/`; scrolls exactly for `#` hrefs whose element exists, to that element |
| LandingPage.OtherLinksDoNothing | projects/baseline/src/pages/LandingPage.tsx:74-86 | any other href, and a `#` href without its element, does nothing |
| LandingPage.NavLinks | projects/baseline/src/pages/LandingPage.tsx:92-95 | one link per content link, in order, its properties kept |
| LandingPage.LinkDispatchesOwnHref | projects/baseline/src/pages/LandingPage.tsx:92-95 | clicking a link does what its own href asks |
| LandingPage.CtaScrollsToContact | projects/baseline/src/pages/LandingPage.tsx:96-99 | the navigation call-to-action scrolls to `#contact` when present, otherwise does nothing, and never navigates |
| LandingPage.IconMap | projects/baseline/src/pages/LandingPage.tsx:26-33 | an icon found by a name has that name |
| LandingPage.IconFor | projects/baseline/src/pages/LandingPage.tsx:148-152 | the icon of that name, and `Zap` for a name no icon has |
| LandingPage.FeatureCards | projects/baseline/src/pages/LandingPage.tsx:148-152 | one card per feature, in order, title and description copied, icon looked up with the fallback |
| HeroParts.Fragments | projects/bellator/components/sections/GymHero.tsx:54-62 | one fragment per word, in order; exactly the last one is highlighted |
| HeroParts.TitleFragments | projects/bellator/components/sections/GymHero.tsx:54-62 | the title's pieces between single spaces, exactly the last highlighted |
| HeroParts.FragmentsText | projects/bellator/components/sections/GymHero.tsx:56-59 | the fragments read as the words joined by single spaces |
| HeroParts.HeadingReadsTitle | projects/bellator/components/sections/GymHero.tsx:54-62 | the heading's text is the title |
| HeroParts.SingleWordTitle | projects/bellator/components/sections/GymHero.tsx:54-57 | a title with no space gives one highlighted fragment |
| GymHero.Render | projects/bellator/components/sections/GymHero.tsx:36-90 | the image first with alt `Bellator Gym` and no other image; exactly one heading, made of the title |
| GymHero.OptionalElements | projects/bellator/components/sections/GymHero.tsx:45-90 | badge, description and each button are present exactly when their props are given, with their text |
| GymHero.DocumentOrder | projects/bellator/components/sections/GymHero.tsx:45-90 | the badge comes before the heading, and the primary button before the secondary one |
| GymHero.ElementsInOrder | projects/bellator/components/sections/GymHero.tsx:36-90 | image, badge, heading, description, primary and secondary button, each at most once and in that order, so the heading precedes the description and the buttons |
| SplitHero.AltText | projects/bellator/components/sections/SplitHeroBellatorGym.tsx:63-160 | the subtitle when non-empty, otherwise `Bellator Gym facility` or `Bellator Squash court` by side |
| SplitHero.RenderSide | projects/bellator/components/sections/SplitHeroBellatorGym.tsx:59-131 | the image first with its alt; exactly one heading, made of the side's title |
| SplitHero.OptionalElements | projects/bellator/components/sections/SplitHeroBellatorGym.tsx:75-130 | on either side, badge, description and each button are present exactly when their props are given, with their text |
| SplitHero.ElementsInOrder | projects/bellator/components/sections/SplitHeroBellatorGym.tsx:59-131 | on either side image, badge, heading, description, then the two buttons in the side's order, each at most once |
| SplitHero.ButtonOrder | projects/bellator/components/sections/SplitHeroBellatorGym.tsx:206-227 | the gym side puts the primary button first; the squash side the secondary one |
| SplitHero.HeadingsReadTitles | projects/bellator/components/sections/SplitHeroBellatorGym.tsx:88-193 | each side's heading is present and reads as its own title |
| TestimonialCard.EffectiveRating | projects/bellator/components/molecules/TestimonialCard.tsx:19 | an omitted rating is 5 |
| TestimonialCard.Threshold | projects/bellator/components/molecules/TestimonialCard.tsx:34 | index `i` is filled exactly when `i < rating` |
| TestimonialCard.Stars | projects/bellator/components/molecules/TestimonialCard.tsx:29-37 | exactly five stars, star `i` filled exactly when `i < rating`, filled stars first |
| TestimonialCard.ThresholdCount | projects/bellator/components/molecules/TestimonialCard.tsx:34 | a whole-number rating `k` fills `k` of the indices, clamped to none and all |
| TestimonialCard.FilledStars | projects/bellator/components/molecules/TestimonialCard.tsx:29-37 | a whole-number rating fills `min(max(rating, 0), 5)` stars |
| TestimonialCard.RatingSlot | projects/bellator/components/molecules/TestimonialCard.tsx:27-39 | as written: a zero rating renders the text `0`, any other the five stars |
| TestimonialCard.ZeroRatingRendersZero | projects/bellator/components/molecules/TestimonialCard.tsx:27 | a card rated 0 shows a stray `0` and no star row |
| TestimonialCard.CorrectedRatingSlot | projects/bellator/components/molecules/TestimonialCard.tsx:27-39 | nothing exactly for a zero rating, otherwise the five stars |
| TestimonialCard.CorrectionOnlyAffectsZero | projects/bellator/components/molecules/TestimonialCard.tsx:27-39 | the correction agrees with the code on every non-zero rating and never renders text |
| TestimonialCard.CardBody | projects/bellator/components/molecules/TestimonialCard.tsx:41-66 | the quote, then the avatar (alt the name) when the image is non-empty, then the name, then the role when non-empty, and nothing else |
| TestimonialCard.BodyElements | projects/bellator/components/molecules/TestimonialCard.tsx:41-66 | an avatar and a role appear exactly when their props are non-empty, and the body holds no rating |
| TestimonialCard.Card | projects/bellator/components/molecules/TestimonialCard.tsx:22-68 | as written: the rating slot, then the body; the text `0` appears, before the quote, exactly when the rating is 0 |
| TestimonialCard.CorrectedCard | projects/bellator/components/molecules/TestimonialCard.tsx:22-68 | as intended: the corrected slot, then the body; avatar and role exactly when non-empty; never any rating text |
| TestimonialCard.CardsDifferOnlyAtZero | projects/bellator/components/molecules/TestimonialCard.tsx:27-39 | the written and the intended card agree on every rating but 0, where the written one has the extra `0` first |
| TestimonialCard.DefaultRatingFillsAllStars | projects/bellator/components/molecules/TestimonialCard.tsx:19-37 | a card without a rating starts with five filled stars |

## Left out

- File system, `readline`, `git`, `process.exit` and console output are not modelled as
  effects. Files, answers, `git log` and `git diff` are inputs; the written content is the
  result; exit codes are values.
- The awaited `onSubmit` and the 5000 ms timer are events: a submit takes the handler's
  outcome, and a timer firing is a method call. Re-renders in between are not modelled.
- JSON objects are maps, so key order is lost. Prototype-chain lookups are not modelled:
  `field in data` in `validateRequired`, and `iconMap[name]` for inherited names such as
  `toString`.
- Non-object arguments to `merge` and `deepMerge` are not modelled. Neither is the fact that
  `merge` never mutates its inputs (the model works on values, so there is no aliasing).
- `toLowerCase` is modelled for ASCII letters only. Other Unicode case mappings are not
  modelled, such as the Kelvin sign lowering to `k` in `hasBreakingChange`.
- slugify's lower-casing, NFD normalisation and mark stripping are one function parameter,
  `fold`. `StripSymbols` treats `\w` as ASCII word characters.
- `querySelector` errors on malformed selectors are not modelled; the page's elements are a
  set of selectors.
- Styling, class names, icons, layout and click handlers other than the ones listed are not
  modelled. The squash side's `flex-row-reverse` shows the buttons reversed on screen; the
  model states document order.
- ScaffoldPrompts.RunInterview: when the typed lines run out the model returns `None`. The
  script would wait for more input instead.
- PackageJson.UpdatePackageJson: a document that is not an object or an array throws, as an
  assignment to a primitive's property does in strict mode. The text of the warning and of
  the error is not modelled.
- TemplateCopy.CopyDirectoryRecursive: only a target that does not exist yet is modelled.
  Merging into an existing target, `statSync` errors and symbolic links are not modelled.
- ContactForm.ValidationErrors: blank means all whitespace, which is what `trim() === ''`
  decides. The regular expression is stated as a string predicate.
- DataValidate.Validate: JSON numbers are integers, so `NaN`, which is falsy and so invalid
  (engine/packages/data-utils/validate.ts:15), cannot be passed.
- DataValidate.ValidateRequired: the data is a map, so `validateRequired(null, ["a"])`, where
  `field in data` throws a `TypeError` (engine/packages/data-utils/validate.ts:29), cannot be passed.
- TextHelpers.Truncate: the length is an integer. A fractional length, which `substring`
  floors (`truncate(t, 2.5)`), and `NaN`, for which `truncate("", NaN)` gives `...`, are not
  modelled.
- TextHelpers.Truncate: a string is a sequence of Unicode scalar values, while JavaScript's
  `length` and `substring` count UTF-16 code units. `truncate("😀😀", 1)` cuts a surrogate
  pair in JavaScript; the model gives `😀...`.
- PackageJson.UpdatePackageJson: the input is the parsed document or `None`. A malformed
  `package.json`, on which `JSON.parse` throws (scripts/create-project.ts:69-85), is not
  modelled.
- TestimonialCard: ratings are reals, so `NaN` and the infinities are not modelled. `NaN`
  would render as text, like 0.
- `formatDate`, `cn`, the WordPress clients, the React context providers and the mobile-menu
  toggles are not part of this model.

## Findings

| source | as written | input that shows it | evidently intended | confidence | as-written member | corrected member |
|---|---|---|---|---|---|---|
| projects/bellator/components/molecules/TestimonialCard.tsx:27 | `{rating && (...)}` renders the falsy number itself, so React prints `0` | `rating = 0` | a zero rating renders no star row and no stray text | high, not executed | TestimonialCard.RatingSlot | TestimonialCard.CorrectedRatingSlot |

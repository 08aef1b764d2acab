# spritegen: the per-directory sprite package, modelled in Dafny

spritegen walks a directory tree and builds one *sprite package* per directory. A package collects the directory's image files and stacks them vertically into a single `sprite.png`. It also writes a `sprite.css` that has one rule per image.

Each image is placed at the left edge, one padding below the bottom of the image before it:
- the package is as wide as its widest image;
- its height is the sum of each image's padding and height.

Each CSS rule is filled in from a template with these tags:
- the package's namespace (`{path}`), which comes from the directory's path relative to the root;
- the sanitised file name (`{file}`);
- the image's offsets (`{left}`, `{top}`) and size (`{width}`, `{height}`).

The model covers these pieces of `lib/spritegen.js`:

- `ImageFilter` (image_filter.dfy): the image-file test.
  - A file counts as an image when its lower-cased extension is one of `.png`, `.jpg`, `.tiff`, `.gif`, `.bmp`.
  - The exact name `sprite.png` is excluded.
  - The extension is the suffix from the last dot, where that dot is not the first character.
- `Naming` (naming.dfy):
  - the sanitisation of file names, where every `.`, `_` and JavaScript whitespace character becomes `-`;
  - the namespace of a directory: the first `/`, then the first space of its relative path become `-`, and a `-` is appended when the result is not empty.
- `Tokens` (tokens.dfy): token replacement.
  - For each tag in turn, every `{tag}` is replaced by the tag's value, scanning left to right.
  - `ReplaceTokens` is the loop.
  - `Substitute` is the function that specifies it.
- `Layout` (layout.dfy):
  - the `SpritePackage` class, whose `AddImage` places one image, widens and heightens the package, and records the image's CSS rule;
  - the specification functions `StackHeight`, `MaxWidth` and `StyleText`;
  - the layout lemmas: every image inside the package, no two images sharing a row, one rule per image in image order.
- `SpriteGenerator` (spritegen.dfy):
  - the `SpriteGen` object with its settings defaults;
  - the guard of `execute`;
  - the loop of `_createSpritePackages` over one directory listing. The listing is an input sequence of entries: subdirectories, and files with their decoded width and height.

The CSS offsets are the image's own `left` and `top`, non-negative and not negated, exactly as the code writes them. CSS sprites are normally positioned with negative offsets. The model follows the code.

Replacing tags can leave a tag behind. Take a template containing `{{path}}` and the value `path` for the tag `path`: the result is `{path}` (`Tokens.NestedTokenSurvives`). The guarantee that no supplied tag is left behind therefore holds only for templates without such nesting (`NoNestedOpen`). The stylesheet template has none (`Layout.StyleTemplateNoNestedOpen`), so every rule is filled in completely whenever the namespace and the file name hold no `{`.

`Wrappers` (wrappers.dfy) holds the `Result` type.

## Model

| member | source | states |
|---|---|---|
| ImageFilter.IsImageFile | lib/spritegen.js:43-50 | the filter itself: the lower-cased extension is one of the five listed ones and the name is not `sprite.png` |
| ImageFilter.LastDot | lib/spritegen.js:46 | the index of the last `.` of a name, or -1: a dot is there and none follows it |
| ImageFilter.ToLower | lib/spritegen.js:46 | lower-casing keeps the length and maps each character on its own |
| ImageFilter.ExtName | lib/spritegen.js:46 | the extension is empty or a suffix of the name that starts at a dot other than the first character and holds no further dot; it is non-empty exactly when the name has a dot after its first character |
| ImageFilter.IsImageFileIffSuffix | lib/spritegen.js:43-50 | a name is an image file exactly when it is not `sprite.png` and it ends, case-insensitively, with one of the five extensions preceded by at least one character |
| ImageFilter.SpriteOutputIsNotAnImage | lib/spritegen.js:49 | the generated `sprite.png` is never taken as input |
| ImageFilter.StylesheetIsNotAnImage | lib/spritegen.js:43-50 | the generated `sprite.css` is not an image |
| ImageFilter.CapitalisedSpriteIsAnImage | lib/spritegen.js:46-49 | `Sprite.PNG` is accepted: the extension test ignores case, the name test does not |
| ImageFilter.HiddenFileIsNotAnImage | lib/spritegen.js:46 | `.png` has no extension, so it is not an image |
| ImageFilter.DoubleExtension | lib/spritegen.js:46-48 | only the last extension counts: `logo.txt.gif` is accepted |
| ImageFilter.InnerExtensionIgnored | lib/spritegen.js:46-48 | only the last extension counts: `logo.gif.txt` is not accepted |
| Naming.Sanitize | lib/spritegen.js:145 | sanitising keeps the length, turns every `.`, `_` and whitespace character into `-`, and leaves every other character unchanged |
| Naming.SanitizeRemovesSeparators | lib/spritegen.js:20 | no `.`, `_` or whitespace character is left after sanitising |
| Naming.SanitizeIdempotent | lib/spritegen.js:145 | sanitising twice is sanitising once |
| Naming.ReplaceFirst | lib/spritegen.js:92-93 | only the first occurrence of the character is replaced; everything else is kept |
| Naming.ReplaceFirstCount | lib/spritegen.js:92-93 | when the character occurs, replacing its first occurrence removes exactly one copy of it and adds exactly one copy of the new character; when it does not occur, both counts are unchanged |
| Naming.ReplaceFirstSplit | lib/spritegen.js:92-93 | replacing at the first occurrence `i` gives the prefix before `i`, the new character, then the rest unchanged |
| Naming.Namespace | lib/spritegen.js:91-96 | the namespace of a directory: its relative path with the first `/` and then the first space replaced by `-`, plus a trailing `-` when not empty |
| Naming.NamespaceShape | lib/spritegen.js:94-96 | the root (empty relative path) gets the empty namespace; any other namespace is one character longer than the path and ends in `-` |
| Naming.NamespaceCharacters | lib/spritegen.js:91-96 | the namespace is the relative path with its first `/` and then its first space turned into `-`, followed by `-` |
| Naming.NestedNamespace | lib/spritegen.js:91-96 | `a/b/c` becomes `a-b/c-`: later slashes stay |
| Naming.SpacedNamespace | lib/spritegen.js:91-96 | `x y/z w` becomes `x-y-z w-`: only the first space is replaced |
| Tokens.ReplaceAll | lib/spritegen.js:31-32 | the global replace of one token: scanning left to right, every occurrence that does not overlap an earlier replaced one becomes the value |
| Tokens.Substitute | lib/spritegen.js:29-36 | the template after each tag, in key order, has had all its occurrences replaced |
| Tokens.ReplaceTokens | lib/spritegen.js:29-36 | the loop over the replacements computes `Substitute`: every `{tag}` replaced by its value, one tag at a time in key order |
| Tokens.ReplaceAllAbsent | lib/spritegen.js:31-32 | replacing a pattern that does not occur leaves the text unchanged |
| Tokens.SubstituteAbsent | lib/spritegen.js:29-36 | a template holding no `{tag}` of any supplied tag comes back unchanged |
| Tokens.ReplaceAllNoNewToken | lib/spritegen.js:31-32 | when the value has no `{` and the text has no nested `{`, one global replace creates no token: any token present afterwards was present before and is not the token just replaced |
| Tokens.SubstituteLeavesNoToken | lib/spritegen.js:29-36 | when no value contains `{` and the template has no nested `{`, no `{tag}` of any supplied tag is left in the result |
| Tokens.NestedTokenSurvives | lib/spritegen.js:31-32 | with nesting the guarantee fails: `{{path}}` with `path` for `path` leaves `{path}` |
| Layout.SourceImages | lib/spritegen.js:101-110 | the entries of a listing that are files passing the image filter, in listing order |
| Layout.SourceImagesExact | lib/spritegen.js:101-110 | every entry a directory contributes is one of its image files, every image file of the directory is contributed, and there are no more entries than in the listing |
| Layout.SourceImagesSkip | lib/spritegen.js:103-110 | a subdirectory or a non-image file adds nothing to the package |
| Layout.StackHeight | lib/spritegen.js:130 | the package height for a list of images: the sum of padding plus height over the images |
| Layout.MaxWidth | lib/spritegen.js:127 | the package width for a list of images: the running maximum of their widths, starting from 0 |
| Layout.MaxWidthIsWidest | lib/spritegen.js:127 | the package width is 0 with no images, is at least every image's width, and is some image's width |
| Layout.StackedAt | lib/spritegen.js:116-122 | image `i` sits at left 0 and top = padding + the stack height of the images before it |
| Layout.StackHeightMonotone | lib/spritegen.js:130 | the stack height never shrinks as images are added |
| Layout.StackPush | lib/spritegen.js:116-130 | placing an image one padding below the stack keeps it a stack, adds padding + height to the height, and widens to the image when it is wider |
| Layout.RuleAt | lib/spritegen.js:143-150 | rule `i` of the stylesheet is the rule of image `i`, with that image's own offsets and size |
| Layout.ImageInsidePackage | lib/spritegen.js:119-130 | every image fits inside the package's width and height, and the last one reaches the bottom edge |
| Layout.ImagesSeparated | lib/spritegen.js:119-130 | an image starts at least one padding below the bottom of any earlier image, so no two images share a row |
| Layout.StackHeightGrowsWithPadding | lib/spritegen.js:119-130 | a padding larger by `d` makes the package taller by `d` per image |
| Layout.Decimal | lib/spritegen.js:146-149 | a number is written as non-empty decimal digits without a leading zero |
| Layout.DecimalRoundTrip | lib/spritegen.js:146-149 | reading back the digits written for a number gives that number |
| Layout.StyleReplacements | lib/spritegen.js:143-150 | the six tags of a rule (path, file, left, top, width, height) are valid tag names, in that order |
| Layout.StyleText | lib/spritegen.js:133-150 | the CSS rule of one image: the template filled in with the namespace, the sanitised name, and the image's offsets and size |
| Layout.StyleTemplateNoNestedOpen | lib/spritegen.js:133-140 | no `{` of the rule template is followed by tag characters and then another `{` |
| Layout.StyleTextFillsEveryTag | lib/spritegen.js:143-150 | when the namespace and the file name hold no `{`, none of the six tags is left in the filled-in rule |
| Layout.RulesFillEveryTag | lib/spritegen.js:143-150 | under the same condition, no rule a package records keeps any of the six tags |
| Layout.StyleRule | lib/spritegen.js:133-150 | the rule of one image is the template filled in by token replacement with the package namespace, the sanitised name, and the offsets and size |
| Layout.SpritePackage.constructor | lib/spritegen.js:81-88 | a new package is empty, 0 by 0, for the given directory and namespace, and valid for every padding |
| Layout.SpritePackage.AddImage | lib/spritegen.js:116-150 | appends the image at left 0 and top = old height + padding, widens to the image, adds padding + height, appends its rule, and keeps the package a valid stack |
| Layout.TwoImageStack | lib/spritegen.js:116-130 | two 10-wide images of heights 20 and 5 with padding 2 sit at tops 2 and 24 in a package 29 high |
| SpriteGenerator.Settings | lib/spritegen.js:60-64 | settings hold `dir`, `padding` and `verbose`, and every given option overrides its default |
| SpriteGenerator.NoOptionsGiveDefaults | lib/spritegen.js:60-64 | with no options: no root directory, padding 2, not verbose |
| SpriteGenerator.OptionsOverride | lib/spritegen.js:60-64 | a setting is the option when given, otherwise its default |
| SpriteGenerator.UndefinedPaddingOverrides | lib/spritegen.js:60-64 | a padding option present with the value `undefined` replaces the default |
| SpriteGenerator.Truthy | lib/spritegen.js:247 | JavaScript truthiness of an option value: `undefined`, `null`, `false`, `0` and the empty string are falsy |
| SpriteGenerator.CheckRootDir | lib/spritegen.js:247-252 | a falsy root directory is refused with the required-directory error; a truthy one that is not a string cannot be resolved; a non-empty string passes |
| SpriteGenerator.PriorOutputIgnored | lib/spritegen.js:43-50 | a directory holding only an earlier run's `sprite.png` and `sprite.css` contributes no image |
| SpriteGenerator.AddFolderItem | lib/spritegen.js:103-151 | a subdirectory or a non-image file leaves the package unchanged; an image file is stacked with `AddImage`; the package stays valid |
| SpriteGenerator.FillPackage | lib/spritegen.js:101-152 | after the listing, the package holds exactly the directory's image files in listing order, as a valid stack with one rule each |
| SpriteGenerator.SpriteGen.constructor | lib/spritegen.js:57-70 | root directory, verbosity and padding are the settings for `options` |
| SpriteGenerator.SpriteGen.CreateSpritePackages | lib/spritegen.js:79-165 | the package for a directory has its namespace, holds exactly its image files stacked in listing order with one rule each, and is rendered exactly when the directory has an image file |
| SpriteGenerator.SpriteGen.Execute | lib/spritegen.js:244-254 | a falsy root directory fails with the required-directory error and changes nothing, whatever the padding; otherwise the root becomes the resolved path and its package is built with the empty namespace |

## Left out

- Rendering (`_renderImages`, `_renderStyleSheet`, lib/spritegen.js:172-238): canvas drawing, PNG streaming and file writes are I/O. `CreateSpritePackages` only reports whether the package would be rendered.
- The recursive walk, `fs.readdirSync` and `fs.statSync` (lib/spritegen.js:99-106): each directory's listing is an input sequence. A subdirectory entry adds nothing to its parent's package. The visit of the subdirectory itself is not modelled.
- Image decoding (lib/spritegen.js:113-114): width and height are given naturals, and failing decodes are not modelled.
- `path.resolve` and `path.relative`: the resolved root and the relative path of a directory are parameters.
- `ImageFilter.ExtName`: the dot rule is modelled on bare file names as a directory listing returns them. Names containing `/` are not considered.
- `ImageFilter.ToLower`: lower-cases ASCII letters only. No other character lower-cases to a letter of the five extensions, so the image test is unaffected.
- Console logging and the effects of the `verbose` setting.
- The `canvas-gyp`/`canvas` require fallback (lib/spritegen.js:3-9) and `lib/cli.js`, which only parses arguments and rethrows errors.
- `Tokens.ReplaceTokens`: values are inserted literally. The special `$` patterns of JavaScript replacement strings are not interpreted. Tags must be valid tag names (a letter followed by letters, digits or `_`), so no tag holds a regular-expression metacharacter.
- `SpriteGenerator.SpriteGen.CreateSpritePackages`: requires the padding to be a non-negative integer. JavaScript arithmetic on other padding values (strings, fractions, negatives) is not modelled.
- `SpriteGenerator.SpriteGen.Execute`: requires the padding to be a non-negative integer only when the root directory passes the guard, as above. It also does not model `path.resolve` throwing on a truthy root that is not a string; that case is the `DirNotAString` error.
- JavaScript numbers are modelled as integers: option values carry integers, and image sizes are naturals.
- `_placeImages`: one test expects it, but lib/spritegen.js does not define it. No shelf or row packing is modelled; the layout is the vertical stack the code builds.

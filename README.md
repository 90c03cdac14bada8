# Art-exhibition site: a verified model of its self-contained logic

The site is a Next.js front end over a headless WordPress. Most of its code
fetches data and renders views. Four groups of logic are self-contained, and
this project models them in Dafny and proves what they promise:

- **CMS field handling** (`src/lib/wp.ts`, `src/lib/scf.ts`,
  `src/lib/wp-helpers.ts`). These functions take loosely typed JSON values and:
  - flatten the shapes an ACF (custom fields) payload can take into one record;
  - walk key paths;
  - pick the first string that has text;
  - stringify field values;
  - filter the embedded taxonomy terms;
  - read fields through a field-group descriptor;
  - classify an image field as a direct URL, an id to look up, or nothing.

  JSON values are the `JsValues.JsValue` datatype. A record is an ordered
  association list, so key order and the last-wins rule of
  `Object.fromEntries` are explicit. JavaScript truthiness is the predicate
  `JsValues.Truthy`.
- **GitHub Actions IP-range change detection**
  (`scripts/check_github_actions_ips.py`). The model covers:
  - the action keys kept from the metadata, as sorted, deduplicated lists;
  - the normalisation of the cache on load;
  - the per-key diff report;
  - the decision whether to rewrite the cache.

  Python's string order is modelled as lexicographic order on code points.
- **The noisy-blur tiling effect** (`src/app/components/NoisyBlurText.tsx`).
  - On the fragment-shader side, the model covers:
    - the capped, early-breaking fBm octave loop and its normalisation;
    - wrap-around tile addressing and the gap test;
    - the 17-tap Gaussian blur with its small-radius shortcut;
    - the contrast, S-curve and mask pipeline of `main`.
  - On the host side, the model covers:
    - the canvas `resize`;
    - the image `onload`;
    - the tile geometry written each frame.

  The host side is a class whose fields are the canvas size, the image size,
  the texture flag and the uniforms. Shader numbers are `real`.
- **Route matching** (`src/app/components/header.tsx`,
  `src/app/components/MainContainer.tsx`). The model covers:
  - base-path stripping;
  - the active-link test;
  - the "behind" section test that chooses the top padding.

Engine built-ins are parameters of the model, with only the facts the code
relies on:
- `JsValues.Runtime` holds `String(number)` and `JSON.stringify`. Their results
  are never empty.
- `NoisyBlurShader.Primitives` holds the GLSL built-ins:
  - `valueNoise` lies in [0, 1];
  - `exp` is positive and `exp(0) = 1`;
  - `pow(0, 1.5) = 0`;
  - a texel has every channel in [0, 1].
- `hash`, `sin`, `cos` and `sqrt` are opaque functions.

Loops in the source are `while` or `for` loops here, each proved against a
function that specifies it:
- `pickFirstString` and `resolveAcfText`;
- the nested loops of `getScfData`;
- the `qs.set` calls of `fetchWpList`;
- the filtering loop of `fetch_actions_ip_ranges`;
- the loop in `diff_ranges`;
- the octave loop in `fbmCustom`;
- the tap loop in `blurPattern`.

## Model

| member | source | states |
|---|---|---|
| JsValues.Coalesce | src/lib/scf.ts:31 | `a ?? b` is `a` unless `a` is null or undefined, in which case it is `b` |
| JsValues.Get | src/lib/wp.ts:207 | reading a property of a non-object, or a missing property, gives undefined |
| JsValues.Assign | src/lib/scf.ts:48 | a property write keeps an existing key in its place and appends a new key at the end |
| JsValues.AssignLookup | src/lib/scf.ts:58 | after `obj[key] = value`, `key` reads `value` and every other key reads what it read before |
| JsValues.FromEntries | src/lib/wp.ts:194 | `Object.fromEntries` builds a record in which no key occurs twice |
| JsValues.FromEntriesLookup | src/lib/wp.ts:194 | `Object.fromEntries` is last-wins: every key reads the value of its last entry, and is absent when no entry has it |
| JsValues.NonEmptyStringProp | src/lib/scf.ts:87 | `typeof v[k] === "string" && v[k]` yields text exactly when the property is a non-empty string, and then yields that string |
| JsValues.Trim | src/lib/wp.ts:214 | `trim()` gives an infix of the input with only white space before and after it, and with no white space at either of its own ends |
| JsValues.TrimAllSpace | src/lib/wp.ts:226-227 | the trimmed string is empty exactly when the input is all white space |
| JsValues.TrimIdempotent | src/lib/wp.ts:226 | trimming twice is trimming once |
| JsValues.Join | src/lib/wp.ts:236 | joining one part gives that part, and joining parts of which one is non-empty gives a non-empty string |
| Wp.EntryKey | src/lib/wp.ts:185-190 | an ACF array element contributes a key only when it is a record, and that key is a non-empty string |
| Wp.AcfEntries | src/lib/wp.ts:183-193 | each array element yields at most one `[key, value]` pair |
| Wp.LastKeyedValue | src/lib/wp.ts:194 | there is a value for `key` exactly when some element carries that key |
| Wp.NormalizeAcfFields | src/lib/wp.ts:180-197 | a falsy payload gives `{}`; a record is returned unchanged; any other non-array gives `{}`; an array gives a record without duplicate keys |
| Wp.AcfEntriesLast | src/lib/wp.ts:182-194 | the last pair for a key carries the `value` of the last element whose `name`, `key` or `field` (in that priority) is that key |
| Wp.NormalizeArrayLookup | src/lib/wp.ts:182-194 | for an array payload, a key is present exactly when some element carries it, and it reads the `value` of the last such element |
| Wp.Walk | src/lib/wp.ts:204-208 | a non-empty path from a falsy or non-record value gives undefined |
| Wp.ReadAcfPath | src/lib/wp.ts:200-209 | the empty path gives the record itself; a one-key path gives that property |
| Wp.WalkAppend | src/lib/wp.ts:204-208 | reading a path in two parts is the same as reading it at once |
| Wp.PickFirstString | src/lib/wp.ts:211-219 | it returns nothing exactly when no value is a string with text; otherwise it returns the trimmed text of the first such string |
| Wp.Survivors | src/lib/wp.ts:233-235 | the filtered parts are all non-empty; a string survives exactly when it is non-empty and some part holds it; none survive exactly when every part is null or "" |
| Wp.SurvivorsAppend | src/lib/wp.ts:233-235 | the filter keeps order: filtering a concatenation gives the filtered halves, concatenated |
| Wp.SurvivorsOne | src/lib/wp.ts:233-235 | a single part survives exactly when it is non-empty text |
| Wp.StringifyAcfValue | src/lib/wp.ts:224-242 | the result is never ""; a string gives its trim, or null when it is all white space; a boolean gives "true" or "false"; numbers and records always give text; null and undefined give null |
| Wp.StringifyArray | src/lib/wp.ts:232-237 | an array gives the element texts that survive the filter (`Survivors`, order kept by `SurvivorsAppend`) joined by ", "; it gives null exactly when no element yields text |
| Wp.ResolveAcfText | src/lib/wp.ts:256-269 | the result is null exactly when no selector yields text; otherwise it is the non-empty text of the first selector, in list order, that yields text |
| Wp.PickedIsStringified | src/lib/wp.ts:263-265 | `pickFirstString([raw]) ?? stringifyAcfValue(raw)` always equals `stringifyAcfValue(raw)` |
| Wp.GetWorkAcfTitle | src/lib/wp.ts:274-290 | the result is null exactly when no title candidate has text; otherwise it is the text of the first candidate, in the listed order, that has text (so the `works.title` group field wins whenever it has text) |
| Wp.GetWorkAcfName | src/lib/wp.ts:295-310 | the result is null exactly when no name candidate has text; otherwise it is the text of the first candidate, in the listed order, that has text |
| Wp.Flat | src/lib/wp.ts:149 | every non-array term survives `flat()` |
| Wp.Categories | src/lib/wp.ts:149-163 | filtering and projecting never lengthens the list |
| Wp.CategoriesMembers | src/lib/wp.ts:149-163 | every category comes from a kept term, and every kept term gives its category |
| Wp.CategoriesAppend | src/lib/wp.ts:149-163 | the filter keeps the terms' order: it distributes over concatenation |
| Wp.KeptTermShape | src/lib/wp.ts:157-161 | a kept term is a plain object whose taxonomy is "category" or falsy |
| Wp.ExtractEmbeddedTerms | src/lib/wp.ts:144-164 | the result is [] unless `wp:term` is an array; otherwise its categories are exactly the projections of the kept terms of the flattened list |
| Wp.RemoveName | src/lib/wp.ts:100 | removing a name leaves no pair with that name, keeps every other name's value and keeps names unique |
| Wp.SetParam | src/lib/wp.ts:100-102 | after `set`, the name reads the new value, every other name reads what it read before, and names stay unique |
| Wp.SearchParams.constructor | src/lib/wp.ts:99 | a new query is empty |
| Wp.SearchParams.Set | src/lib/wp.ts:100-102 | `qs.set` replaces the pair list by its `SetParam` update |
| Wp.ListQuery | src/lib/wp.ts:99-102 | every caller parameter reads its last given value; `per_page` is "100" and `page` is "1" only when the caller gave none; no name occurs twice |
| Scf.AcfOf | src/lib/scf.ts:31 | a null or undefined node, or a node whose `acf` is missing, null or undefined, gives an empty record; a node with a non-nullish `acf` gives that `acf` |
| Scf.ReadField | src/lib/scf.ts:33-43 | a record with a `formatted_value` key gives that value; otherwise null and undefined give null; every other value is returned as it is |
| Scf.GroupSource | src/lib/scf.ts:55 | an object (or array) group value is used as it is; anything else becomes `{}` |
| Scf.GroupEntries | src/lib/scf.ts:56-59 | one entry per child alias, each holding `readField` of the child's field |
| Scf.FieldValue | src/lib/scf.ts:46-60 | a plain field reads through `readField`; a group gives a record without duplicate keys, built from its children |
| Scf.ScfEntries | src/lib/scf.ts:46-61 | one entry per descriptor alias, in order |
| Scf.GetScfData | src/lib/scf.ts:27-64 | the result is the record built from the descriptor's entries, with no duplicate keys |
| Scf.ReadGroup | src/lib/scf.ts:54-59 | the inner loop builds the record of the group's child entries |
| Scf.ScfAliases | src/lib/scf.ts:45-61 | the result has a property exactly for each descriptor alias |
| Scf.GroupAliases | src/lib/scf.ts:54-59 | a group record has a property exactly for each child alias |
| Scf.ScfLookup | src/lib/scf.ts:46-61 | with distinct aliases, every alias reads the value of its own definition |
| Scf.GroupMissingAllNull | src/lib/scf.ts:52-58 | when the group value is not an object, every child alias reads null |
| Scf.NullNodeFields | src/lib/scf.ts:31-49 | without a node, or with a missing or nullish `acf`, every plain field is null and every group's children are all null |
| Scf.DigitsValue | src/lib/scf.ts:103-105 | the value of a digit string ending in a non-zero digit is positive |
| Scf.DigitsValueZero | src/lib/scf.ts:103-106 | a digit string has value 0 exactly when all its digits are '0' |
| Scf.NumericId | src/lib/scf.ts:103-105 | there is an id exactly for a number or an all-digit string; it is the number itself, or the decimal value of the digits |
| Scf.CaptionOf | src/lib/scf.ts:92-96 | a non-empty `caption` string wins; otherwise a string `caption.rendered`; otherwise nothing |
| Scf.DirectUrl | src/lib/scf.ts:86-89 | a non-empty `url` wins over `source_url`; the result is never empty |
| Scf.ClassifyMedia | src/lib/scf.ts:79-106 | an absolute or protocol-relative URL string is used as it is, with no alt or caption; an object's direct URL comes with its alt and caption; these two are the only direct answers; a lookup happens only for a non-zero id |
| Scf.ClassifyFetch | src/lib/scf.ts:102-106 | a lookup happens exactly for a non-zero number or a digit string that is not all zeros |
| Scf.ObjectWithoutUrlUnresolved | src/lib/scf.ts:97-106 | an object with no usable `url` or `source_url` resolves to null without a lookup, even when it has an `id` |
| Scf.UnresolvedExamples | src/lib/scf.ts:79-120 | 0, "0", a relative path, "", a boolean, null and an array all resolve to null without a lookup |
| Scf.MediaFromNode | src/lib/scf.ts:107-118 | a fetched media node gives a result exactly when its `source_url` (else `guid.rendered`) is a string, and that string is the url; alt is `alt_text` and caption is `caption.rendered`, each kept only when it is a string |
| Scf.ResolveScfMediaUrl | src/lib/scf.ts:76-121 | a direct answer is returned as it is; an unresolved value gives null; an id gives the media record of the fetched node |
| Scf.ResolveWithoutFetch | src/lib/scf.ts:79-106 | for any value that is not an id, the answer does not depend on the media endpoint |
| WpHelpers.GetRenderedString | src/lib/wp-helpers.ts:25-31 | it returns `rendered` exactly when the value is an object carrying a string `rendered` |
| WpHelpers.RenderedStringNone | src/lib/wp-helpers.ts:9-31 | it returns nothing exactly for non-rendered-text values and for `rendered` null or undefined |
| WpHelpers.GetFormattedValue | src/lib/wp-helpers.ts:33-45 | a string is returned unchanged, "" included; an object with `formatted_value` gives `String` of it, or nothing when it is null or undefined; anything else gives nothing |
| WpHelpers.FormattedAgreesWithReadField | src/lib/wp-helpers.ts:37-43 | on a record with `formatted_value`, it gives text exactly when the scf.ts `readField` gives a non-nullish value, and that text is `String` of the value |
| SortedStrings.Insert | scripts/check_github_actions_ips.py:39 | inserting into a strictly increasing list keeps it strictly increasing and adds exactly the new element |
| SortedStrings.SortUnique | scripts/check_github_actions_ips.py:39 | `sorted(set(xs))` is strictly increasing and has the same elements as `xs` |
| SortedStrings.SortedUnique | scripts/check_github_actions_ips.py:39 | a set has only one strictly increasing listing |
| SortedStrings.SortedExists | scripts/check_github_actions_ips.py:76 | every finite set of strings has a strictly increasing listing |
| SortedStrings.SortedOf | scripts/check_github_actions_ips.py:76 | `sorted(s)` of a set is strictly increasing and lists exactly `s` |
| SortedStrings.SortUniqueIsSortedOf | scripts/check_github_actions_ips.py:60 | deduplicating and sorting is `sorted` of the element set, and doing it twice changes nothing |
| SortedStrings.SortSet | scripts/check_github_actions_ips.py:76 | sorting a set by repeated insertion gives its sorted listing |
| SortedStrings.Minus | scripts/check_github_actions_ips.py:80-81 | the list difference holds exactly the set difference |
| IpRanges.ListOr | scripts/check_github_actions_ips.py:78-79 | `mapping.get(key, [])` gives the list, or [] for a missing key |
| IpRanges.KeptRanges | scripts/check_github_actions_ips.py:34-39 | a key is kept exactly when it is listed and its list is non-empty, and it holds its sorted, deduplicated list |
| IpRanges.ActionRanges | scripts/check_github_actions_ips.py:29-45 | it is an error exactly when none of `actions`, `actions_ipv4` and `actions_ipv6` has a non-empty list; otherwise it is a non-empty mapping of those keys |
| IpRanges.SelectActionRanges | scripts/check_github_actions_ips.py:29-45 | the filtering loop computes exactly the kept ranges, or the error |
| IpRanges.LoadCachedRanges | scripts/check_github_actions_ips.py:48-60 | a missing cache is empty; a corrupt one is an error; a parsed one keeps its keys, each holding its sorted, deduplicated list |
| IpRanges.Prefixed | scripts/check_github_actions_ips.py:87 | one line per value, each the prefix followed by the value |
| IpRanges.AppendSection | scripts/check_github_actions_ips.py:82-90 | one loop body appends exactly the key's section |
| IpRanges.ComputedChanges | scripts/check_github_actions_ips.py:78-81 | the loop's added and removed lists are the sorted new-minus-old and old-minus-new sets |
| IpRanges.DiffLinesStep | scripts/check_github_actions_ips.py:77-90 | one more key extends the lines by exactly that key's section |
| IpRanges.DiffRanges | scripts/check_github_actions_ips.py:70-91 | the report is the sections of all keys of either mapping, in ascending key order, joined by newlines |
| IpRanges.SectionEmpty | scripts/check_github_actions_ips.py:78-83 | a key contributes no lines exactly when its old and new sets are equal |
| IpRanges.SectionLinesNonEmpty | scripts/check_github_actions_ips.py:84-90 | no line of a section is empty |
| IpRanges.SectionAddedLines | scripts/check_github_actions_ips.py:78-87 | the "+" lines of a key name exactly the ranges in new minus old |
| IpRanges.SectionRemovedLines | scripts/check_github_actions_ips.py:78-90 | the "-" lines of a key name exactly the ranges in old minus new |
| IpRanges.DiffLinesNonEmpty | scripts/check_github_actions_ips.py:84-91 | no line of the report is empty |
| IpRanges.DiffLinesEmpty | scripts/check_github_actions_ips.py:77-91 | there are no lines exactly when every listed key is unchanged |
| IpRanges.DiffReportEmpty | scripts/check_github_actions_ips.py:76-91 | the report is "" exactly when every key, a missing key counting as an empty list, has equal old and new sets |
| IpRanges.RunCheck | scripts/check_github_actions_ips.py:94-140 | see the list below the table |
| IpRanges.ReloadSorted | scripts/check_github_actions_ips.py:60 | loading a cache whose lists are already sorted and deduplicated gives it back unchanged |
| IpRanges.RerunWritesNothing | scripts/check_github_actions_ips.py:94-121 | see the list below the table |
| NoisyBlurShader.Clamp | src/app/components/NoisyBlurText.tsx:192 | `clamp` lies in [lo, hi], is the identity inside it and is lo or hi outside it |
| NoisyBlurShader.Fract | src/app/components/NoisyBlurText.tsx:122 | `fract` lies in [0, 1) |
| NoisyBlurShader.Mix4Unit | src/app/components/NoisyBlurText.tsx:201 | mixing two colours in [0, 1] by a weight in [0, 1] stays in [0, 1] |
| NoisyBlurShader.OctaveRuns | src/app/components/NoisyBlurText.tsx:99-102 | the octaves still to run never take the count past 8 |
| NoisyBlurShader.OctaveCount | src/app/components/NoisyBlurText.tsx:99-102 | at most 8 octaves run |
| NoisyBlurShader.OctaveCountExact | src/app/components/NoisyBlurText.tsx:99-102 | octave i (i < 8) runs exactly when i < `uNoiseOctaves` |
| NoisyBlurShader.OctaveRunsExact | src/app/components/NoisyBlurText.tsx:99-102 | from any start j, octave i runs exactly when i < `uNoiseOctaves` |
| NoisyBlurShader.OctaveCountCases | src/app/components/NoisyBlurText.tsx:99-102 | a count of at most 0 runs none; a count in (0, 1], such as the default 0.1, runs one; a count above 7 runs all 8 |
| NoisyBlurShader.FbmCustom | src/app/components/NoisyBlurText.tsx:94-114 | the loop returns the weighted octave sum, divided by the total amplitude when that exceeds 1e-4 |
| NoisyBlurShader.OctaveStep | src/app/components/NoisyBlurText.tsx:104-108 | one octave adds `amp * n` to the sum and `amp` to the norm, and multiplies the frequency by the lacunarity and the amplitude by the gain |
| NoisyBlurShader.AmpNonNegative | src/app/components/NoisyBlurText.tsx:96-108 | with a non-negative amplitude and gain, every octave's amplitude is non-negative |
| NoisyBlurShader.OctaveSumBounds | src/app/components/NoisyBlurText.tsx:99-109 | the weighted sum lies between 0 and the total amplitude |
| NoisyBlurShader.FbmInUnit | src/app/components/NoisyBlurText.tsx:94-114 | with a non-negative amplitude and gain, the fBm value lies in [0, 1] |
| NoisyBlurShader.FbmNoOctaves | src/app/components/NoisyBlurText.tsx:94-114 | with no octaves the fBm value is 0 |
| NoisyBlurShader.FbmOneOctave | src/app/components/NoisyBlurText.tsx:94-114 | with one octave and an amplitude above 1e-4, the value is the single noise sample at `p * max(freq, 0.0001)` |
| NoisyBlurShader.Gaussian | src/app/components/NoisyBlurText.tsx:116-119 | the weight is positive, and 1 at distance 0 |
| NoisyBlurShader.Repeat | src/app/components/NoisyBlurText.tsx:121-124 | a wrapped coordinate lies in [0, period) |
| NoisyBlurShader.RepeatPeriodic | src/app/components/NoisyBlurText.tsx:121-124 | shifting by one period leaves the wrapped coordinate unchanged |
| NoisyBlurShader.RepeatInside | src/app/components/NoisyBlurText.tsx:121-124 | a coordinate inside [0, period) wraps to itself |
| NoisyBlurShader.RepeatCoord | src/app/components/NoisyBlurText.tsx:121-124 | `repeatCoord` lies in [0, period) on both axes |
| NoisyBlurShader.SamplePattern | src/app/components/NoisyBlurText.tsx:126-133 | every sample has its channels in [0, 1] |
| NoisyBlurShader.SamplePatternCases | src/app/components/NoisyBlurText.tsx:126-133 | a pixel in the gap samples `vec4(0)`; any other pixel samples the texture at `cell / tileSize` |
| NoisyBlurShader.SamplePatternPeriodic | src/app/components/NoisyBlurText.tsx:126-133 | the pattern repeats every tile step on each axis |
| NoisyBlurShader.NoGapWhenStepIsSize | src/app/components/NoisyBlurText.tsx:127-130 | when the step does not exceed the tile, no pixel falls in a gap |
| NoisyBlurShader.KernelFor | src/app/components/NoisyBlurText.tsx:139 | sigma is at least 1 |
| NoisyBlurShader.BlurSamples | src/app/components/NoisyBlurText.tsx:143-178 | 17 samples: the centre, then the 16 rotated taps |
| NoisyBlurShader.BlurWeights | src/app/components/NoisyBlurText.tsx:143-178 | 17 weights: the centre's Gaussian weight, then each tap's weight |
| NoisyBlurShader.BlurSmallRadius | src/app/components/NoisyBlurText.tsx:136-138 | a radius of at most 0.001 gives the sharp sample at the pixel |
| NoisyBlurShader.BlurPattern | src/app/components/NoisyBlurText.tsx:135-181 | see the list below the table |
| NoisyBlurShader.WeightedSumBounds | src/app/components/NoisyBlurText.tsx:140-178 | for samples in [0, 1] and non-negative weights, each channel of the accumulated colour lies in [0, total weight] |
| NoisyBlurShader.TotalWeightAtLeastFirst | src/app/components/NoisyBlurText.tsx:143-178 | the total weight is at least the centre weight |
| NoisyBlurShader.BlurInUnit | src/app/components/NoisyBlurText.tsx:135-181 | with the centre weight 1 the total is at least 1, so the blurred colour lies in [0, 1] |
| NoisyBlurShader.Pattern | src/app/components/NoisyBlurText.tsx:176 | the sampler handed to the blur is `samplePattern` at every pixel |
| NoisyBlurShader.PatternInUnit | src/app/components/NoisyBlurText.tsx:126-133 | every sample of the pattern lies in [0, 1] |
| NoisyBlurShader.Contrasted | src/app/components/NoisyBlurText.tsx:192 | `contrasted` lies in [0, 1] |
| NoisyBlurShader.Shaped | src/app/components/NoisyBlurText.tsx:194-195 | the S-curve lies strictly between 0 and 1 |
| NoisyBlurShader.Mask | src/app/components/NoisyBlurText.tsx:196 | `mask` lies in [0, 1] |
| NoisyBlurShader.MaskMonotone | src/app/components/NoisyBlurText.tsx:196 | a stronger mask strength never gives a weaker mask |
| NoisyBlurShader.MaskZero | src/app/components/NoisyBlurText.tsx:196 | a mask strength of at most 0 gives a mask of 0 |
| NoisyBlurShader.NoiseVis | src/app/components/NoisyBlurText.tsx:203-205 | the noise visualisation is grey in [0, 1], with alpha 1 |
| NoisyBlurShader.MaskOf | src/app/components/NoisyBlurText.tsx:192-196 | the mask of a pixel lies in [0, 1] |
| NoisyBlurShader.ShadeFragment | src/app/components/NoisyBlurText.tsx:183-207 | `main` writes the pipeline's colour for the fBm noise of the pixel's animated noise coordinate |
| NoisyBlurShader.ShadeWithNoise | src/app/components/NoisyBlurText.tsx:192-206 | from the noise value on, `main` computes contrast, S-curve, mask, radius, sharp and blurred samples, their mix and the visualisation mix |
| NoisyBlurShader.ShadeInUnit | src/app/components/NoisyBlurText.tsx:192-206 | with `showNoise` in [0, 1] and samples in [0, 1], every channel of the output lies in [0, 1] |
| NoisyBlurShader.FragmentInUnit | src/app/components/NoisyBlurText.tsx:183-207 | with ready tiles and `showNoise` in [0, 1], every fragment written lies in [0, 1] on every channel |
| NoisyBlurShader.ShadeWithoutMask | src/app/components/NoisyBlurText.tsx:196-201 | with no mask and the visualisation off, the output is the sharp sample |
| NoisyBlurShader.ShadeShowNoise | src/app/components/NoisyBlurText.tsx:206 | with `showNoise` 1, the output is the grey noise visualisation |
| NoisyBlurHost.Dpr | src/app/components/NoisyBlurText.tsx:338 | the ratio is at most 2, and positive for a non-negative device ratio |
| NoisyBlurHost.DprCases | src/app/components/NoisyBlurText.tsx:338 | a ratio of 0 falls back to 1; a ratio in (0, 2] is used as it is; above 2 it is capped at 2 |
| NoisyBlurHost.CanvasDim | src/app/components/NoisyBlurText.tsx:340-341 | a canvas side is at least 1, and otherwise the floor of extent × ratio |
| NoisyBlurHost.TileGeometry | src/app/components/NoisyBlurText.tsx:359-365 | tiles are at least 1 pixel on each side; for a non-negative ratio the step is at least the tile |
| NoisyBlurHost.GeometryReady | src/app/components/NoisyBlurText.tsx:358-370 | the geometry written each frame meets the shader's tile precondition |
| NoisyBlurHost.NoGapsWithoutGap | src/app/components/NoisyBlurText.tsx:362-363 | with both gaps at most 0, no pixel falls in a gap |
| NoisyBlurHost.NoisyBlurCanvas.constructor | src/app/components/NoisyBlurText.tsx:308-310 | the mounted state is a 300 × 150 canvas, a 1 × 1 placeholder image, no texture and no tile uniforms |
| NoisyBlurHost.NoisyBlurCanvas.Resize | src/app/components/NoisyBlurText.tsx:337-348 | the canvas takes the device-pixel size, which is counted as a write only when it changes; the resolution uniform is set; nothing else changes |
| NoisyBlurHost.NoisyBlurCanvas.OnImageLoad | src/app/components/NoisyBlurText.tsx:313-321 | the image size is recorded and the texture becomes ready; nothing else changes |
| NoisyBlurHost.NoisyBlurCanvas.Frame | src/app/components/NoisyBlurText.tsx:354-370 | see the list below the table |
| NoisyBlurHost.ResizeTwice | src/app/components/NoisyBlurText.tsx:337-348 | resizing twice to the same box writes the canvas size at most once |
| Header.CurrentPath | src/app/components/header.tsx:8-12 | a pathname starting with the base path is the base followed by the result; otherwise the result is the pathname; a missing pathname or base counts as "" |
| Header.CurrentPathWithoutBase | src/app/components/header.tsx:8-12 | with an unset or empty base, the current path is the pathname, or "" when there is none |
| Header.ActiveNested | src/app/components/header.tsx:21-22 | two routes active on one path are equal, or one lies below the other |
| Header.NavHrefsFlat | src/app/components/header.tsx:13-19 | no navigation route lies below another |
| Header.AtMostOneActive | src/app/components/header.tsx:13-22 | for any current path, at most one of the four links is active |
| Header.ActiveExamples | src/app/components/header.tsx:21-22 | "/works/x" activates "/works"; "/worksx" does not |
| Header.BaseCutsMidSegment | src/app/components/header.tsx:10-12 | see the list below the table |
| MainContainer.PaddingTopClass | src/app/components/MainContainer.tsx:12 | the class is "pt-20" exactly when the path is in the behind section, and "pt-40" otherwise |
| MainContainer.NoPathNotBehind | src/app/components/MainContainer.tsx:9-12 | a missing pathname is not behind, and gets "pt-40" |
| MainContainer.BehindIsActive | src/app/components/MainContainer.tsx:9-11 | a path is behind exactly when the header's active test holds for "/behind" on that path |
| MainContainer.BehindExamples | src/app/components/MainContainer.tsx:9-11 | "/behind/2024" is behind; "/behindx" is not |

The rows that point here state more than one fact.

- **IpRanges.RunCheck**:
  - The exit status is 1 exactly when the metadata has no action ranges or the cache is corrupt. Otherwise it is 0.
  - The cache is written exactly when the run succeeds and either the loaded cache is empty or the diff is non-empty.
  - What is written is the fetched ranges.
- **IpRanges.RerunWritesNothing**: after a write, loading the cache gives back the same ranges, and a run with unchanged metadata finds an empty diff. So it writes nothing.
- **NoisyBlurShader.BlurPattern**:
  - A radius of at most 0.001 gives the sharp sample.
  - Otherwise the result is the weighted sum of the 17 samples, divided by the total weight floored at 1e-5.
- **NoisyBlurHost.NoisyBlurCanvas.Frame**:
  - The time uniform is the elapsed seconds.
  - Once the texture is ready, the tile uniforms are written with the frame's geometry.
  - Before that, the tile uniforms are left untouched.
  - Nothing else changes.
- **Header.BaseCutsMidSegment**: the base path is stripped by a plain prefix test. With base "/a", the page "/about" becomes "bout", which activates no link.

## Left out

- Network and file I/O are not modelled:
  - `fetch` and `fetchWpNode`, pagination (`fetchAllPosts`), the endpoint URL and its encoding, and the response headers;
  - `urlopen`, reading and writing the cache file, and printing.

  Only the decisions made on the decoded data are modelled. The cache file is one of the states missing, corrupt or parsed, and the metadata is a decoded mapping.
- The media fetch in `resolveScfMediaUrl` is a parameter from an id to the node it returns. The model does not capture that it is asynchronous.
- JSON decoding is not modelled. In the Python script, a non-list value under a key is not modelled: ranges are lists of strings.
- JavaScript numbers are reals. NaN, the infinities, -0 and float rounding are left out.
- Integer-like keys do not move to the front of a JavaScript object. Records keep insertion order.
- Property access on arrays and strings (`length`, indices) gives undefined in the model. The source never reads such properties from these values on purpose.
- `String(number)` and `JSON.stringify` are opaque parameters. The model relies only on their output never being empty.
- WebGL plumbing is not modelled:
  - context, shader compilation, buffers and uniform locations;
  - `drawArrays`;
  - the `requestAnimationFrame` scheduling, `ResizeObserver` and teardown.

  A frame is the `Frame` method, called with the current time and device ratio.
- The GLSL built-ins are opaque parameters: `hash`, `valueNoise`, `exp`, `sin`, `cos`, `pow`, `sqrt` and `texture2D`. GLSL float precision is not modelled. The brightness pulse `sin(t * 2.0)` is just one opaque value.
- `blurPattern` and the fragment pipeline take `samplePattern` as a sampler function (`Pattern`). The shader calls it directly.
- Frames drawn before the image loads are not modelled. The render loop draws every frame (`src/app/components/NoisyBlurText.tsx:372`), but it writes `uTileSize` and `uTileStep` only once the texture is ready. Until then both uniforms hold 0, and `repeatCoord` divides by zero, which GLSL leaves undefined. So the shader's members require `TilesReady`, the state the host establishes after `onload`.
- NoisyBlurHost.NoisyBlurCanvas.Frame: requires a non-negative `devicePixelRatio`, which the browser always reports. With a negative ratio the source would compute a negative step, and that case is not modelled.
- NoisyBlurShader.FbmInUnit: proves the [0, 1] bound for a non-negative amplitude and gain. This covers the positive values the component's defaults use. Negative values are outside the bound, as in the source.
- Wp.Flat: states only that non-array terms survive. The exact flattened sequence is its definition, and `ExtractEmbeddedTerms` relies on that.
- Other parts of the site are not part of this model:
  - the flipbook loader `dflip-viewer.tsx`;
  - the presentational components and pages;
  - `util.ts` and `paths.ts`;
  - the static configuration.

# Scaffold prompt engine — a Dafny model

Scaffold is a Next.js application. A user defines apps, the tasks of each
app, the form fields of each task and one prompt template per task. An
embeddable form then collects the field values and asks the server to compose
the final prompt. This project models that path.

The prompt composer (`POST /api/generate-prompt`) is an ordered pipeline of
string passes:
- header choice;
- the `<<fixed>>` pass;
- value-map merge by precedence;
- `{{key}}` substitution;
- three clean-up regular expressions;
- line normalisation.

The project also models:
- the template builder's helpers: field-name slugs, the undefined-variable lint, template generation from fields with a stable sort by `order`, the next order, and the new-field payload;
- the embed form's client logic: defaults, runtime-field exclusion, the required-field gate and render dispatch;
- the request validators and the Supabase error classification of the `task-fields`, `prompt-templates`, `tasks` and `apps` routes;
- the builder's variable tracker;
- a small script that locates single quotes in a file.

Modelling choices:
- Strings are `seq<char>` in ASCII.
- JSON request bodies are `map<string, JsValue>`, and a missing key stands for `undefined`.
- Value maps whose entry order matters are `seq<(string, string)>` with first-insertion order; a reassigned key keeps its place, as JavaScript objects do.
- Each regular expression pass is an explicit left-to-right scanner. For each scanner, a lemma ties it to a declarative description of what the pattern matches.
- Database calls and `getSupabaseServer` are parameters: a `DbOutcome` (data or a `DbError` record), a `Client` that is either configured or carries what it threw, or a function from the filters and data sent to the answer.
- Code that changes state step by step is imperative Dafny:
  - the substitution loop;
  - the in-place sort of the field array;
  - the defaults loop and the required-field scan;
  - the PATCH loop of the task-fields route;
  - the quote scan.
  Each states its result in its `ensures`, either as a specification function of its inputs, with the properties proved about that function, or directly as the property the code promises.
- The embed form's React state is a class, `EmbedForm.FormPage`, whose fields its event handlers update.

Modules:
`Wrappers`, `Strings`, `Entries`, `Api`, `Composer`, `GeneratePromptRoute`,
`Slug`, `TemplateCheck`, `Builder`, `EmbedForm`, `TaskFieldsRoute`,
`PromptTemplatesRoute`, `TasksRoute`, `AppsRoute`, `VariableTracker`,
`QuotePositions`.

Some places where the code does something a reader might not expect. The
model follows the code in each case:
- Without fixed content the `<<fixed>>` pass can leave a marker behind. Deleting a marker can join its neighbours into a new one: `"<<fix<<fixed>>ed>>"` becomes `"<<fixed>>"` (`Composer.ResolveFixedCanReformMarker`).
- The leftover-placeholder pass does not clear every placeholder: `"{{a}{{b}}}"` becomes `"{{a}}"`, and so does the same shape with any two characters other than braces (`Composer.StripPlaceholdersCanLeaveToken`). A later pass can also create one: `"{(){key}}"` becomes `"{{key}}"` (`Composer.CleanupCanFormPlaceholder`).
- `generateTemplateFromFields` gives a line for every field, runtime fields included, although the embed form hides runtime fields.
- `PATCH /api/prompt-templates` creates the database client before it checks the update data. A configuration error therefore wins over a bad template.
- The 404 text of that route always shows the body's `task_name`, even when the row was selected by `id` (it then reads `undefined`).
- In `POST /api/tasks` a `name` that is neither a string nor `null` makes `name?.trim()` throw. The reply is the `catch` block's, not the 400.

## Model

| member | source | states |
|---|---|---|
| Strings.Trim | app/api/generate-prompt/route.ts:108 | the result is the slice of the input that starts right after its leading whitespace and is followed only by whitespace, with no whitespace at either end; it is empty exactly when the input is all whitespace; a trimmed string is returned unchanged |
| Strings.TrimUnique | app/api/generate-prompt/route.ts:108 | any non-empty slice with no whitespace at its ends and only whitespace before and after it is the trim of the input |
| Strings.TrimIdempotent | app/api/generate-prompt/route.ts:108 | trimming twice is trimming once |
| Strings.ToLower | app/builder/page.tsx:49 | same length; each upper-case ASCII letter is mapped to its lower-case letter and every other character is kept |
| Strings.Split | app/api/generate-prompt/route.ts:107 | at least one piece, and no piece contains the separator |
| Strings.JoinSplit | app/api/generate-prompt/route.ts:107 | joining the pieces of `split(sep)` with `sep` gives back the text |
| Strings.SplitJoin | app/api/generate-prompt/route.ts:107-110 | splitting a join of separator-free pieces gives back the pieces |
| Strings.SplitAtSeparator | app/api/generate-prompt/route.ts:107 | splitting `a + sep + b` gives the pieces of `a` followed by the pieces of `b` |
| Strings.ContainsIff | app/components/VariableTracker.tsx:25 | `includes` holds exactly when the pattern is a slice of the text at some index |
| Strings.ReplaceAllIsSplitJoin | app/api/generate-prompt/route.ts:84 | a global literal replace equals cutting at the non-overlapping occurrences and joining with the replacement |
| Strings.SplitOnJoin | app/api/generate-prompt/route.ts:84 | the cut pieces joined with the pattern give back the text |
| Strings.SplitOnPiecesFree | app/api/generate-prompt/route.ts:84 | no cut piece contains the pattern |
| Strings.ReplaceAllAbsent | app/api/generate-prompt/route.ts:84 | a text without the pattern is unchanged by the replace |
| Strings.NonBlankLines | app/builder/page.tsx:581-584 | every kept line is non-empty, trimmed and free of newlines |
| Strings.TrimmedNonEmptyMembers | app/builder/page.tsx:582-584 | a string is kept exactly when it is non-empty and is the trim of some input line |
| Strings.TrimmedNonEmptyAppend | app/api/generate-prompt/route.ts:108-109 | the trim-and-filter of a concatenation is the concatenation of the trim-and-filters |
| Entries.Lookup | app/api/generate-prompt/route.ts:91 | the lookup is absent exactly when no entry has the key, and a found value belongs to an entry with that key |
| Entries.Set | app/embed/form/page.tsx:87 | the key now maps to the value, every other key keeps its lookup, and a new key is appended at the end while an existing one keeps its place |
| Entries.Assign | app/api/generate-prompt/route.ts:91 | spreading a source into a target keeps the keys distinct and takes entries only from the two |
| Entries.AssignLookup | app/api/generate-prompt/route.ts:91 | after the spread a key has the source's value when the source has the key, else the target's |
| Entries.AssignKeepsOrder | app/api/generate-prompt/route.ts:91 | the target's keys stay first, in their order |
| Entries.LookupDistinct | app/api/generate-prompt/route.ts:94 | with distinct keys every entry is what the lookup of its key finds |
| Api.Get | app/api/tasks/route.ts:82 | destructuring a body yields a value exactly when the key is present, and that value |
| Api.OrDefault | app/api/task-fields/route.ts:148-149 | `??` replaces only `undefined` and `null` |
| Api.OrNull | app/api/tasks/route.ts:98-99 | `\|\| null` keeps truthy values and stores every falsy one as `null` |
| Api.NatToString | app/api/prompt-templates/route.ts:290 | decimal digits only, no leading zero, and reading the digits back (Horner's rule) gives the number |
| Api.IntToString | app/api/prompt-templates/route.ts:290 | a non-negative integer is its digits, with no leading zero; a negative one is `-` followed by the digits of its absolute value, which start with a non-zero digit; reading the digits back gives the number |
| Api.Failure | app/api/prompt-templates/route.ts:101-106 | the reply carries the status and exactly `success: false` and the error message |
| Api.Succeeded | app/api/prompt-templates/route.ts:173 | status 200, `success: true` added to the given fields, other keys unchanged |
| Api.ConflictResponse | app/api/prompt-templates/route.ts:139-148 | status 409 with the route's message; `details` is present exactly when the database gave a message and then equals that message; no other keys |
| Api.RlsResponse | app/api/prompt-templates/route.ts:150-160 | status 500 with the RLS error text and the service-role hint text; `details` is present exactly when the database gave a message and then equals it; no other keys |
| Api.DbErrorResponse | app/api/prompt-templates/route.ts:162-170 | status 500; the error text is the database message; `code` and `details` are present exactly when the database gave them and then equal them; no other keys |
| Api.InsertErrorResponse | app/api/prompt-templates/route.ts:139-170 | 409 exactly for a duplicate-key error; otherwise the RLS reply for a permission error, else the raw database error |
| Api.MessageOnlyResponse | app/api/tasks/route.ts:194-196 | status 500 carrying only `success` and the database message |
| Api.ClassifyThrown | app/api/prompt-templates/route.ts:60-88 | always 500; an `Error` reports its message and gets the `.env.local` hint text exactly when the message mentions both "Missing" and "environment variable"; anything else is "Internal server error" |
| Api.Opaque500 | app/api/tasks/route.ts:199-201 | whatever was thrown, the reply is 500 "Internal server error" |
| Composer.SelectHeader | app/api/generate-prompt/route.ts:72-76 | the trimmed task header when it is non-blank, else the trimmed app header when that is non-blank, else none; a chosen header is non-empty and trimmed |
| Composer.WorkingText | app/api/generate-prompt/route.ts:78-80 | header, blank line and raw template when a header was chosen, else the raw template |
| Composer.ResolveFixedPieces | app/api/generate-prompt/route.ts:83-88 | the pass cuts at every non-overlapping marker (no piece contains one) and joins with the fixed content when truthy, else with nothing |
| Composer.ResolveFixedAbsent | app/api/generate-prompt/route.ts:83-88 | a text without the marker passes through unchanged |
| Composer.ResolveFixedSingleShot | app/api/generate-prompt/route.ts:84 | a marker inside the fixed content is not replaced again |
| Composer.ResolveFixedCanReformMarker | app/api/generate-prompt/route.ts:87 | with no fixed content a marker can still remain once the pass is done |
| Composer.ReplaceAllSkipsPlain | app/api/generate-prompt/route.ts:84 | a prefix where no occurrence starts is copied unchanged |
| Composer.MergeValues | app/api/generate-prompt/route.ts:91 | the merged map has distinct keys |
| Composer.MergePrecedence | app/api/generate-prompt/route.ts:91 | on a collision runtime context beats field values, which beat task values, which beat global values |
| Composer.MergeValuesValid | app/api/generate-prompt/route.ts:91 | merging admissible maps gives an admissible map |
| Composer.Substitute | app/api/generate-prompt/route.ts:94-99 | the loop computes the sequential substitution, key by key in entry order |
| Composer.SubstituteKeyPieces | app/api/generate-prompt/route.ts:95-98 | one key's step cuts at every non-overlapping `{{key}}` and joins with the value |
| Composer.SubstituteAllAbsent | app/api/generate-prompt/route.ts:94-99 | a text with no key's placeholder is unchanged by the loop |
| Composer.SubstituteIsSequential | app/api/generate-prompt/route.ts:94-99 | a value holding a later key's placeholder is substituted again, and an earlier key's placeholder is not |
| Composer.BracedMatch | app/api/generate-prompt/route.ts:118 | the scanner matches exactly the `{{…}}` token (one or more non-`}` characters) that starts the text, if any |
| Composer.StripPlaceholdersToken | app/api/generate-prompt/route.ts:118 | a leading token is deleted |
| Composer.StripPlaceholdersPlain | app/api/generate-prompt/route.ts:118 | a run without `{` is kept |
| Composer.StripPlaceholdersNoDoubleBrace | app/api/generate-prompt/route.ts:118 | a text with no `{{` is unchanged |
| Composer.StripPlaceholdersCanLeaveToken | app/api/generate-prompt/route.ts:117-118 | deleting one token can splice another together, which stays |
| Composer.ParensMatch | app/api/generate-prompt/route.ts:120 | the scanner matches exactly the `(` whitespace `)` that starts the text, if any |
| Composer.StripEmptyParensToken | app/api/generate-prompt/route.ts:120 | a leading empty pair is deleted |
| Composer.StripEmptyParensPlain | app/api/generate-prompt/route.ts:120 | a run without `(` is kept |
| Composer.TrailingAtMatch | app/api/generate-prompt/route.ts:122 | the scanner returns a match of `\s+at\s*(\n\|$)` at the start of the text whenever one exists, the longest one, preferring end of input |
| Composer.TrailingAtMatchBound | app/api/generate-prompt/route.ts:122 | in any match the leading whitespace is the whole leading run and `at` follows it |
| Composer.StripTrailingAtAtEnd | app/api/generate-prompt/route.ts:121-122 | whitespace, `at`, whitespace at the very end is removed |
| Composer.StripTrailingAtBeforeLine | app/api/generate-prompt/route.ts:122 | before a following line the match is replaced by the newline |
| Composer.StripTrailingAtWord | app/api/generate-prompt/route.ts:122 | a run without whitespace is kept |
| Composer.StripTrailingAtDangling | app/api/generate-prompt/route.ts:121-122 | a word followed by whitespace, `at` and optional whitespace at the end of the input is left as the word alone, so `"Sent at "` becomes `"Sent"` |
| Composer.CleanupCanFormPlaceholder | app/api/generate-prompt/route.ts:116-122 | for every key of field-name characters, `{(){key}}` comes out of the three passes as `{{key}}`: the placeholder pass runs before the parentheses pass that splices the placeholder together |
| Composer.Spaced | app/api/generate-prompt/route.ts:110 | the lines with an empty string between every two |
| Composer.SplitJoinedLines | app/api/generate-prompt/route.ts:105-111 | splitting normalised output on `\n` gives its lines separated by exactly one empty line |
| Composer.NonBlankLinesOfJoin | app/api/generate-prompt/route.ts:105-111 | normalising already normalised lines gives the same lines |
| Composer.CleanPromptShape | app/api/generate-prompt/route.ts:105-111 | the output's lines are trimmed and non-empty, and the output is those lines joined by blank lines |
| Composer.CleanPromptIdempotent | app/api/generate-prompt/route.ts:105-111 | `cleanPrompt(cleanPrompt(x)) == cleanPrompt(x)` |
| Composer.Compose | app/api/generate-prompt/route.ts:69-124 | the pipeline computes header choice, fixed pass, substitution, clean-up and normalisation in order, and its output is a fixed point of `cleanPrompt` |
| GeneratePromptRoute.OrEmpty | app/api/generate-prompt/route.ts:8 | a missing value map reads as `{}` |
| GeneratePromptRoute.PromptReply | app/api/generate-prompt/route.ts:129-133 | the success reply carries exactly `success`, `prompt` and `chatgpt_url` |
| GeneratePromptRoute.GeneratePrompt | app/api/generate-prompt/route.ts:5-140 | 400 when `app_id` or `task_name` is falsy; then 500, 404 task, 404 app and 404 template in that order; 200 exactly when every guard passes, with the composed prompt, which is already normalised |
| GeneratePromptRoute.RuntimeContextWins | app/api/generate-prompt/route.ts:91 | a runtime-context value is the value the route substitutes for its key |
| Slug.KeepSlugChars | app/builder/page.tsx:50 | keeps exactly the characters `[a-z0-9_ ]`; a single character is kept or dropped by that test; a string of such characters is returned unchanged |
| Slug.KeepSlugCharsAppend | app/builder/page.tsx:50 | the filter of `a + b` is the filter of `a` followed by the filter of `b`, so the kept characters keep their order and multiplicity |
| Slug.UnderscoreSpaces | app/builder/page.tsx:51 | leaves no whitespace, only underscores and non-space input characters; a string without whitespace is unchanged; a non-empty run of whitespace becomes one `_` |
| Slug.UnderscoreSpacesAppend | app/builder/page.tsx:51 | where a cut does not fall inside a whitespace run, the result for `a + b` is the result for `a` followed by the result for `b`; with the two cases above this fixes the result of every string |
| Slug.Take | app/builder/page.tsx:52 | the first `n` characters of the input, or the whole input when it is shorter |
| Slug.Slugify | app/builder/page.tsx:46-53 | the slug contains only `[a-z0-9_]` and is at most 48 long |
| Slug.SlugifyKeepsSlugs | app/builder/page.tsx:46-53 | a slug of at most 48 characters is its own slug |
| Slug.SlugifyIdempotent | app/builder/page.tsx:46-53 | `slugify(slugify(s)) == slugify(s)` |
| TemplateCheck.WordEnd | app/builder/page.tsx:68 | the end of the maximal run of `\w` characters |
| TemplateCheck.NameMatch | app/builder/page.tsx:68 | a match at an index is `{{`, one or more word characters, `}}` |
| TemplateCheck.NamesFromSound | app/builder/page.tsx:68 | every name found appears as `{{name}}` with a word name |
| TemplateCheck.NamesFromComplete | app/builder/page.tsx:68 | every `{{word}}` in the text is found |
| TemplateCheck.TemplateNamesIff | app/builder/page.tsx:68 | a name is found exactly when `{{name}}` occurs with a word name |
| TemplateCheck.TemplateNamesInOrder | app/builder/page.tsx:68 | one name per `{{name}}` occurrence: the `k`-th name is the placeholder at the `k`-th match start, the starts increase, and every occurrence is among them |
| TemplateCheck.MissingNames | app/builder/page.tsx:74 | every unknown name is kept as often as it occurs, and known names and `system_header` are dropped; a single name is kept exactly when it is unknown |
| TemplateCheck.MissingNamesAppend | app/builder/page.tsx:74 | the filter of `a + b` is the filter of `a` followed by the filter of `b`, so the unknown names keep their order |
| TemplateCheck.ValidateTemplate | app/builder/page.tsx:76-80 | no warning exactly when no name is missing; otherwise the warning is the fixed prefix, the missing names joined by `, `, and the fixed suffix |
| TemplateCheck.ValidateTemplateNone | app/builder/page.tsx:66-80 | no warning exactly when every `{{\w+}}` name is a field name or `system_header` |
| TemplateCheck.MissingKeepsDuplicates | app/builder/page.tsx:68-77 | when no placeholder of the template is known, the missing list is the whole list of names, one per occurrence, so duplicates are kept |
| Builder.Insert | app/builder/page.tsx:93 | inserting a field adds one element |
| Builder.InsertMultiset | app/builder/page.tsx:93 | inserting a field adds exactly that field |
| Builder.SortByOrder | app/builder/page.tsx:93 | the sort keeps the length |
| Builder.SortByOrderPermutes | app/builder/page.tsx:93 | the sort is a permutation of its input |
| Builder.InsertSorted | app/builder/page.tsx:93 | inserting into a sorted list keeps it sorted |
| Builder.SortByOrderSorted | app/builder/page.tsx:93 | the result is ordered by `order` ascending |
| Builder.WithOrderAppend | app/builder/page.tsx:93 | the fields of one order in a concatenation are those of each part in turn |
| Builder.InsertWithOrder | app/builder/page.tsx:93 | an inserted field comes after the fields of its order already there |
| Builder.SortByOrderStable | app/builder/page.tsx:93 | fields of equal order keep their input order |
| Builder.InsertAt | app/builder/page.tsx:93 | the field is inserted after the last row whose order is not larger, and every row after it is larger |
| Builder.SortStep | app/builder/page.tsx:93 | sorting one more element is one more insertion |
| Builder.InsertInPlace | app/builder/page.tsx:93 | the array step inserts `a[i]` into the sorted prefix and leaves the rest alone |
| Builder.SortFieldsByOrder | app/builder/page.tsx:93 | the in-place sort leaves the array equal to the stable sort of its old contents |
| Builder.FieldLines | app/builder/page.tsx:94 | one `label: {{name}}` line per field, in order |
| Builder.TemplateText | app/builder/page.tsx:86-90 | no fields give exactly `"You are a [define here]"` |
| Builder.GenerateTemplateFromFields | app/builder/page.tsx:85-98 | the fields array is left sorted in place and the text is the header then the lines of the sorted fields |
| Builder.HeaderAndLines | app/builder/page.tsx:97 | a header, a blank line and lines joined by one separator split back into the header, an empty line and those lines, when none of them holds the separator |
| Builder.TemplateLines | app/builder/page.tsx:92-97 | the generated text splits into header, empty line and one line per field |
| Builder.GeneratedLinesOrdered | app/builder/page.tsx:92-97 | the lines come from a sorted permutation of the input that keeps ties in input order, one line per field |
| Builder.MaxOrder | app/builder/page.tsx:597 | at least 0, at least every order, and equal to one of them unless 0 |
| Builder.NextOrder | app/builder/page.tsx:597-598 | at least 1, greater than every existing order, and either 1 or one more than an existing order (`Math.max(0, ...orders) + 1`) |
| Builder.NewFieldPayload | app/builder/page.tsx:574-587 | trimmed label; name the slug of the typed name or else the label; options only for select, being the trimmed non-empty lines; default the trimmed text, or null when blank |
| Builder.PayloadOptions | app/builder/page.tsx:580-585 | an option is kept exactly when it is the non-empty trim of some line of the text |
| Builder.PayloadKeepsTypedName | app/builder/page.tsx:576 | the name box holds the slug of what was typed, and a non-empty one is stored as it stands |
| EmbedForm.Defaults | app/embed/form/page.tsx:84-89 | the default map has distinct keys |
| EmbedForm.ApplyDefaults | app/embed/form/page.tsx:84-90 | the loop computes the defaults of the global then task fields |
| EmbedForm.DefaultsLookup | app/embed/form/page.tsx:84-89 | a name has no default exactly when no field of that name has one, else the default of the last such field |
| EmbedForm.LastDefaultExtend | app/embed/form/page.tsx:85-88 | a later field without a default for the name keeps the last default |
| EmbedForm.NoDefaultExtend | app/embed/form/page.tsx:85-88 | a later field without a default for the name keeps the name default-free |
| EmbedForm.Visible | app/embed/form/page.tsx:108 | filtering never adds fields |
| EmbedForm.VisibleMembers | app/embed/form/page.tsx:108 | a field is kept exactly when it is not a runtime field |
| EmbedForm.VisibleAppend | app/embed/form/page.tsx:108 | filtering global then task fields is filtering each in turn |
| EmbedForm.FirstMissing | app/embed/form/page.tsx:110-118 | none exactly when no field blocks; otherwise the first required field whose value is absent or blank |
| EmbedForm.FixedOrNull | app/embed/form/page.tsx:52 | the `fixed` parameter when it is present and non-empty, else null |
| EmbedForm.TaskHasForm | app/embed/form/page.tsx:41 | `has_form` defaults to true when the task detail lacks it |
| EmbedForm.FailureStatus | app/embed/form/page.tsx:61 | the error behind the cross mark, or "Unknown error" |
| EmbedForm.ShownValue | app/embed/form/page.tsx:151 | the field's current value, or `""` |
| EmbedForm.RenderField | app/embed/form/page.tsx:150-227 | textarea, select (with its options or none) and number by type, otherwise a text input, with the label, the required mark and the shown value |
| EmbedForm.RenderList | app/embed/form/page.tsx:235-236 | one widget per non-runtime field, in order |
| EmbedForm.RenderedAreVisible | app/embed/form/page.tsx:235-236 | every rendered field is an input field that is not of type runtime |
| EmbedForm.FormPage.constructor | app/embed/form/page.tsx:20-28 | the page starts with the URL parameters and empty fields, values, status and prompt |
| EmbedForm.FormPage.FormlessRequest | app/embed/form/page.tsx:45-53 | a formless task sends empty field values and the fixed content or null |
| EmbedForm.FormPage.ShowFields | app/embed/form/page.tsx:77-90 | the fields are shown and the values become their defaults |
| EmbedForm.FormPage.ShowFormless | app/embed/form/page.tsx:56-66 | a formless task shows zero fields and shows the prompt or the error |
| EmbedForm.FormPage.Edit | app/embed/form/page.tsx:168-170 | editing sets that field's value and leaves every other key and the rest of the page unchanged |
| EmbedForm.FormPage.Submit | app/embed/form/page.tsx:96-129 | missing URL parameters stop the submit; otherwise no request exactly when a field blocks, with the status naming the first one, else the request with the values and the fixed content |
| EmbedForm.FormPage.ShowReply | app/embed/form/page.tsx:131-141 | a success shows the prompt; a failure shows the error and keeps the old prompt |
| EmbedForm.RuntimeNeverBlocks | app/embed/form/page.tsx:108-117 | adding a `runtime` field anywhere, even a required blank one, leaves the gate's verdict unchanged, so it never stops a submit |
| EmbedForm.GateChecksNoRuntime | app/embed/form/page.tsx:108 | the gate checks only non-runtime fields, drawn from the global and task fields |
| EmbedForm.GateOrder | app/embed/form/page.tsx:108-110 | global fields are checked before task fields |
| TaskFieldsRoute.GetParamsCheck | app/api/task-fields/route.ts:12-30 | passes exactly when both parameters are given; `app_id` is checked first, each with its own 400 |
| TaskFieldsRoute.GetTaskFields | app/api/task-fields/route.ts:6-96 | the parameter checks, then the client, then the select; 200 exactly when all pass, with `fields: data \|\| []` |
| TaskFieldsRoute.PostCheck | app/api/task-fields/route.ts:106-137 | accepted exactly when the five keys are truthy, the type is known and a select has a non-empty options array; checks run in that order |
| TaskFieldsRoute.BuildFieldRecord | app/api/task-fields/route.ts:142-155 | the record is the `fieldData` of the body: the five keys, `required ?? false` and `order ?? 0`, and `options` only for a select with truthy options; nothing else from the body |
| TaskFieldsRoute.FieldInsertError | app/api/task-fields/route.ts:162-192 | always 500; the RLS reply for a permission error, else the raw database error |
| TaskFieldsRoute.PostTaskField | app/api/task-fields/route.ts:99-196 | checks, then client; a record is sent exactly when both pass, and it is the `fieldData` of the body; the reply is 200 with the returned row exactly when the insert of that record succeeds, else the insert error reply |
| TaskFieldsRoute.IdOf | app/api/task-fields/route.ts:295 | `u?.id` is present exactly for an object with an `id` key |
| TaskFieldsRoute.PlannedWrites | app/api/task-fields/route.ts:294-296 | there is at most one write per entry |
| TaskFieldsRoute.FirstRefused | app/api/task-fields/route.ts:294-300 | the index of the first refused write: every earlier write succeeds |
| TaskFieldsRoute.PatchOrders | app/api/task-fields/route.ts:283-307 | 400 for a missing or empty array; otherwise the writes stop at the first refused one and report its message, else 200 after all of them |
| TaskFieldsRoute.PlannedWritesAppend | app/api/task-fields/route.ts:294-296 | the writes of a concatenation are the writes of its parts |
| TaskFieldsRoute.SkippedEntries | app/api/task-fields/route.ts:295-296 | every write comes from an entry with a truthy id and sets `order ?? 0` |
| PromptTemplatesRoute.ListFilters | app/api/prompt-templates/route.ts:24-31 | the select always filters on the app, and on the task name exactly when one is given |
| PromptTemplatesRoute.ListTemplates | app/api/prompt-templates/route.ts:6-89 | 400 without `app_id`; then the client and the select; 200 exactly when all pass, with `templates: data \|\| []` |
| PromptTemplatesRoute.CreateCheck | app/api/prompt-templates/route.ts:99-118 | accepted exactly when the three keys are truthy and the template is a non-blank string, each failure with its own 400 |
| PromptTemplatesRoute.CreateRecord | app/api/prompt-templates/route.ts:124 | the record holds exactly `app_id`, `task_name` and `template` from the body |
| PromptTemplatesRoute.CreateTemplate | app/api/prompt-templates/route.ts:92-202 | checks, client, insert; a 409 only for a duplicate-key insert error |
| PromptTemplatesRoute.BuildUpdate | app/api/prompt-templates/route.ts:226-250 | a given `template` or `new_task_name` must be a non-blank string, `template` first; the update holds only `template` and/or `task_name` with `new_task_name` stored as `task_name` |
| PromptTemplatesRoute.SelectRow | app/api/prompt-templates/route.ts:263-272 | the row is selected within the app by `id` when it is truthy, else by `task_name` |
| PromptTemplatesRoute.UpdateError | app/api/prompt-templates/route.ts:286-316 | `PGRST116` gives the 404, then the RLS reply, then the raw error |
| PromptTemplatesRoute.UpdateTemplate | app/api/prompt-templates/route.ts:206-348 | 400 unless the row is identified; the client before the update checks; a bad `template` or `new_task_name` and an empty update are refused in that order; an update is sent exactly when the row is identified, the client is configured and the data is accepted and not empty; the data sent is `template` and `new_task_name` (stored as `task_name`) as given, the filters are the app and the id or else the task name, and the reply follows what the update answers, 200 only then |
| TasksRoute.CreateGuard | app/api/tasks/route.ts:84-89 | passes exactly when `app_id` is truthy and `name` is a non-blank string; throws for a present name that is neither a string nor null; a falsy `app_id` refuses first |
| TasksRoute.TaskRecord | app/api/tasks/route.ts:95-100 | exactly `app_id`, the trimmed non-empty name, and `description` and `system_header` or null |
| TasksRoute.TaskRecordIgnoresOtherKeys | app/api/tasks/route.ts:82-100 | bodies that agree on the four columns give the same record, so `has_form` is never stored |
| TasksRoute.CreateTask | app/api/tasks/route.ts:78-178 | 400, thrown TypeError, client, then insert with 409 "A task with this name already exists", the RLS reply or the raw error; 200 only after a successful insert |
| TasksRoute.HasFormUpdate | app/api/tasks/route.ts:192 | the update holds only `has_form`, and only when the body has it |
| TasksRoute.TaskFilters | app/api/tasks/route.ts:192 | filters on `app_id` and `name` |
| TasksRoute.UpdateTask | app/api/tasks/route.ts:182-202 | 400 unless `app_id` and `name` are truthy; every throw gives the opaque 500; one update of `has_form` |
| AppsRoute.AppRecord | app/api/apps/route.ts:89 | exactly `name` and `system_header`, stored as null when falsy |
| AppsRoute.AppRlsResponse | app/api/apps/route.ts:104-115 | status 500 with the RLS error text, the service-role hint text, the diagnostic text, and `details` equal to the database message exactly when there is one; no other keys |
| AppsRoute.AppInsertError | app/api/apps/route.ts:104-125 | always 500; the diagnostic appears exactly for a permission error, otherwise the raw error with its code |
| AppsRoute.CreateApp | app/api/apps/route.ts:71-158 | 400 "Missing name" for a falsy name; then the client and the insert; never a 409 |
| VariableTracker.Vars | app/components/VariableTracker.tsx:20 | the marker first, then one `{{name}}` per field in field order |
| VariableTracker.VarsMembers | app/components/VariableTracker.tsx:20 | a token is listed exactly when it is the marker or some field's placeholder |
| VariableTracker.Marked | app/components/VariableTracker.tsx:25 | the check mark is shown exactly when the token occurs in the template |
| VariableTracker.Tracked | app/components/VariableTracker.tsx:24-25 | one row per token, with its mark |
| VariableTracker.MarkAgreesWithLint | app/components/VariableTracker.tsx:25 | for a word field name, the mark is shown exactly when the template lint finds the name |
| QuotePositions.LastIndex | debug_quotes.py:14 | `rfind`: the index holds the character and no later index does, or -1 |
| QuotePositions.CountChar | debug_quotes.py:12 | `count`: zero exactly when the character is absent |
| QuotePositions.Position | debug_quotes.py:12-16 | line and column both start at 1 |
| QuotePositions.FindQuotes | debug_quotes.py:8-16 | the loop produces one entry per quote, in index order; as many entries as quotes |
| QuotePositions.QuoteCount | debug_quotes.py:8-18 | the number of entries is the number of quote characters |
| QuotePositions.QuoteMembers | debug_quotes.py:9-16 | the entries are exactly the positions of the quote characters |
| QuotePositions.SplitPosition | debug_quotes.py:12-15 | the line number picks the piece of the text split on newlines that holds the character, and the column is its index in that piece, plus one |
| QuotePositions.PositionOrder | debug_quotes.py:12-15 | a later index has a later (line, column) |
| QuotePositions.QuotesOrdered | debug_quotes.py:8-16 | the entries are in strictly increasing (line, column) order |
| QuotePositions.QuotesLocated | debug_quotes.py:8-21 | every entry is a quote, and its line and column locate that quote in the text's lines |

## Left out

- I/O, `fetch`, React rendering and effects, `console.error`, timers and the clipboard are not modelled. Each request body, route reply and database answer is a parameter.
- The Supabase client and its queries are not modelled. `getSupabaseServer`, `single()`, ordering and row data are given as results, so the model does not check what the database does with the filters it is sent.
- Api.DbError: `code`, `message` and `details` are each a string or absent. A part the database sends as `null` (PostgREST often sends `details: null`) is treated as absent. The real reply then carries `"details": null` or `"code": null`, but the modelled reply (Api.ConflictResponse, Api.RlsResponse, Api.DbErrorResponse, AppsRoute.AppRlsResponse) leaves that key out.
- `encodeURIComponent` is a parameter of the composer route, and its result is not modelled.
- The runtime's `TypeError` message for a `name` without `trim` in `POST /api/tasks` is a parameter.
- Unicode is not modelled: strings are ASCII, `\s` and `trim` cover the ASCII whitespace only, and `toLowerCase` maps only A to Z.
- JavaScript numbers are modelled as integers, for JSON numbers, field `order`, and `Math.max`.
- GeneratePromptRoute.GeneratePrompt: does not cover values or fixed content that contain `$` patterns; a `requires` excludes them, because `String.replace` expands `$&`, `$1` and `$$` in a replacement. It also does not cover keys with characters outside `[a-z0-9_]` (the characters a slugified field name holds) or keys made only of digits: such keys are spliced into a `RegExp` unescaped, and `Object.entries` lists integer-like keys first.
- GeneratePromptRoute.GeneratePrompt: the value maps are modelled as lists of string pairs, so values that are not strings are not covered. The route writes `value ? String(value) : ""`, which turns `0`, `false` and `null` into `""` and a number into its digits; the model admits only string values, for which that expression is the value itself. A value map that is not an object (an array, a string, a number) is not covered either, nor is what `Object.entries` and the spread make of it. A `fixed_content` that is not a string is likewise not covered.
- Object spreads and assignments model the value lookup and the insertion order of string keys. A key keeps its first place when it is reassigned. Not modelled: integer-like keys, which JavaScript orders before the other keys; getters; and keys inherited from a prototype.
- Composer.ResolveFixedCanReformMarker: states only that a marker can survive the delete pass, not a general invariant. No general "no marker remains" property holds of the code.
- The GET handlers of `/api/tasks` and `/api/apps`, the `DELETE` handler of `/api/task-fields`, and `/api/tasks/[task_name]` and `/api/apps/[id]` are not modelled; they are straight data lookups.
- The builder's component state and its fetch handlers, other than the functions named above, are not modelled.
- The print loop in debug_quotes.py lines 18-22 is output only and is not modelled. It uses `splitlines()` rather than `split('\n')`; QuotesLocated is stated on `split('\n')`.
- EmbedForm: field names that are members of `Object.prototype` (`constructor`, `toString`, `__proto__` and the like) are not modelled. The model looks a name up among the own keys of `values` and of the defaults only. In the page, such a name with no own value finds the inherited member: the required check then calls `trim` on a function, and the rendered value is that function. Assigning a string to `__proto__` creates no own key.
- Concurrency is not modelled: requests and `Promise.all` are taken one at a time.

# Contributor wall: validator and card, modelled in Dafny

This project models the two pieces of logic in the contributor-wall site.

**The validator script.** `scripts/validate-contributors.mjs` lists the contributors directory and keeps the `.json` files. It stops early if the directory cannot be read or holds no such file. Otherwise it checks every file in listing order:

- The file must be readable and parse as JSON.
- The value must be an object (not an array, `null` or a primitive).
- `name` must be a non-blank string.
- `github`, `role` and `bio` must be non-blank strings when present.
- A `github` handle must match the GitHub user-name pattern.
- No other key may appear.
- Names must be unique across files, compared trimmed and in lower case. The same holds for handles.

Every problem becomes one message. The run fails if any message was collected.

**The card component.** `src/ContributorCard.jsx` computes:

- the initials shown when there is no avatar;
- the avatar and profile URLs built from the optional handle;
- which optional pieces of a card are shown.

Modules:

- `Optional`, `JsText`, `JsonValue`: the JavaScript building blocks the code relies on.
  - `trim` uses the full ECMAScript whitespace set.
  - `toLowerCase` and `toUpperCase` work on ASCII letters only.
  - `endsWith` is included.
  - A parsed JSON value is a datatype. Property access and `Object.keys` are functions on it.
- `ContributorRules`: the validator as functions.
  - `FileErrors` gives the messages of one file.
  - `Step` is one loop iteration and `Run` is the loop.
  - `Validate` is the whole script, ending in a verdict.
- `ContributorValidator`: the script as it runs.
  - The class `Validator` holds the error list and the two seen sets and updates them in place.
  - The check methods and `ValidateContributors` are proved to produce exactly the state and verdict the functions give.
- `ContributorProperties`: what each rule does to one file, how names and handles are compared, and the handle pattern.
- `ContributorRun`: what the pass over all files does.
  - Messages come out in file order: each file's block follows those of earlier files.
  - The seen sets hold exactly the keys of earlier files.
  - A duplicate is reported on every occurrence after the first.
  - The pass ends with no messages exactly when the data set is valid. Validity (`DataSetValid`) is defined without the pass.
- `ContributorCard`: `split`/`join`, the initials, the URLs and the rendered pieces of a card.

A message is `Err(file, rule, value)`:

- `file` is the file it names.
- `rule` is the rule it reports.
- `value` is the value the message quotes. This is the parser's diagnostic, the raw `name` or `github`, or the unexpected key.

## Model

| member | source | states |
|---|---|---|
| JsText.IsWhitespace | scripts/validate-contributors.mjs:66 | the characters `trim` removes: the ECMAScript white-space and line-terminator code points |
| JsText.Trim | scripts/validate-contributors.mjs:66 | `trim`: drops whitespace from the front, then from the back; `TrimSpec`, `TrimIsSlice` and the padding lemmas state what it returns |
| JsText.TrimSpec | scripts/validate-contributors.mjs:66 | `trim` never lengthens a string; a non-empty result neither starts nor ends with whitespace; the result is empty exactly when the string is all whitespace, which is what the blank checks test |
| JsText.TrimIsSlice | scripts/validate-contributors.mjs:66 | the trimmed string is a slice of the string with only whitespace before and after it; with `TrimSpec` this is the string without its leading and trailing whitespace |
| JsText.TrimDropsLeading | scripts/validate-contributors.mjs:69 | whitespace in front of a string is all removed by `trim` |
| JsText.TrimDropsTrailing | scripts/validate-contributors.mjs:81 | whitespace after a string is all removed by `trim` |
| JsText.TrimIdempotent | scripts/validate-contributors.mjs:69 | trimming an already trimmed value changes nothing |
| JsText.TrimAgreesUpToCase | scripts/validate-contributors.mjs:69 | trimming two strings that agree up to ASCII case gives results of equal length that still agree up to case |
| JsText.ToLower | scripts/validate-contributors.mjs:69 | `toLowerCase`, character by character; `ToLowerSpec` states its effect |
| JsText.ToUpper | src/ContributorCard.jsx:9 | `toUpperCase`, character by character; `ToUpperSpec` states its effect |
| JsText.EndsWith | scripts/validate-contributors.mjs:24 | `endsWith`: the last characters of the string are the suffix |
| JsText.ToLowerSpec | scripts/validate-contributors.mjs:69 | `toLowerCase` maps each character on its own, keeps the length and leaves no ASCII upper-case letter |
| JsText.ToUpperSpec | src/ContributorCard.jsx:9 | `toUpperCase` maps each character on its own, keeps the length and leaves no ASCII lower-case letter |
| JsonValue.Keys | scripts/validate-contributors.mjs:105 | `Object.keys` of the parsed object: the fields' keys in field order; `GetSpec` ties property access to it |
| JsonValue.Get | scripts/validate-contributors.mjs:66 | property access: the value of the field with that key, or `undefined` when there is none; `GetSpec` states both directions |
| JsonValue.GetSpec | scripts/validate-contributors.mjs:77 | a property is defined (not `undefined`) exactly when its key is among `Object.keys`, and its value is that field's value |
| ContributorRules.IsNonBlankString | scripts/validate-contributors.mjs:66 | a present string value that is not empty after `trim` (the test behind every required or optional field) |
| ContributorRules.Normalize | scripts/validate-contributors.mjs:69 | the key a name or handle is compared by, trimmed then lower-cased (also line 81); `NormalizeIgnoresCase` and `NormalizeIgnoresSurroundingSpace` state what it identifies |
| ContributorRules.MatchesHandlePattern | scripts/validate-contributors.mjs:88 | the regular expression, read as a first alphanumeric character followed optionally by up to 37 alphanumerics or hyphens and a final alphanumeric; `HandlePatternShape` gives an independent reading |
| ContributorRules.Entry | scripts/validate-contributors.mjs:60-63 | the fields of a file whose value parsed to an object, or nothing for an array, `null` or a primitive; `RejectedFileHasOneError` states what a rejected file gets |
| ContributorRules.NameKey | scripts/validate-contributors.mjs:69-73 | the normalised name a file adds to the seen names, present exactly when the name is a non-blank string; `SeenNamesOfRun` and `NameRule` state its use |
| ContributorRules.HandleKey | scripts/validate-contributors.mjs:81-85 | the normalised handle a file adds to the seen handles, present exactly when the handle is a non-blank string, whatever its form; `SeenHandlesOfRun` and `GithubRule` state its use |
| ContributorRules.NameErrors | scripts/validate-contributors.mjs:65-74 | the `name` messages of one object; `NameRule` states them |
| ContributorRules.GithubErrors | scripts/validate-contributors.mjs:76-92 | the `github` messages of one object, duplicate before format; `GithubRule` states them |
| ContributorRules.OptionalFieldErrors | scripts/validate-contributors.mjs:94-102 | the `role` or `bio` message of one object; `OptionalFieldRule` states it |
| ContributorRules.FileErrors | scripts/validate-contributors.mjs:41-109 | all messages of one file: one for a read failure, a parse failure or a non-object, otherwise the field checks in the script's order; `RejectedFileHasOneError` and `FileErrorsEmpty` state it |
| ContributorRules.Step | scripts/validate-contributors.mjs:40-110 | one iteration of the loop: append the file's messages and record its name and handle keys; `RunSnocParts` states it |
| ContributorRules.JsonFiles | scripts/validate-contributors.mjs:24 | the kept files are exactly the directory entries whose name ends with `.json`, and no others |
| ContributorRules.JsonFilesAppend | scripts/validate-contributors.mjs:24 | the filter keeps the listing order: filtering two listings one after the other gives the kept files of the first followed by those of the second |
| ContributorRules.JsonFilesOne | scripts/validate-contributors.mjs:24 | a single entry is kept, once, exactly when its name ends with `.json` |
| ContributorRules.UnexpectedKeyErrors | scripts/validate-contributors.mjs:105-109 | the key loop adds no more messages than there are keys; `UnexpectedKeysCounted` gives the count per key |
| ContributorRules.Run | scripts/validate-contributors.mjs:40-110 | the loop only appends to the error list and only adds to the two seen sets |
| ContributorRules.Validate | scripts/validate-contributors.mjs:112-118 | a failing verdict carries at least one message; a passing verdict counts at least one file |
| ContributorValidator.Validator.constructor | scripts/validate-contributors.mjs:35-37 | the pass starts with no messages and empty seen sets |
| ContributorValidator.Validator.CheckFile | scripts/validate-contributors.mjs:40-63 | one iteration leaves the state `Step` gives: a read failure, a parse failure or a non-object ends it with one message |
| ContributorValidator.Validator.CheckEntry | scripts/validate-contributors.mjs:65-109 | the field checks of an object, run in the script's order, leave the state `Step` gives |
| ContributorValidator.Validator.CheckName | scripts/validate-contributors.mjs:65-74 | appends the `name` messages and records the normalised name exactly when the name is a non-blank string |
| ContributorValidator.Validator.CheckGithub | scripts/validate-contributors.mjs:76-92 | appends the `github` messages and records the normalised handle, whether or not it has the form of a user name |
| ContributorValidator.Validator.CheckOptional | scripts/validate-contributors.mjs:94-102 | appends the message for a present `role` or `bio` that is not a non-blank string |
| ContributorValidator.Validator.CheckKeys | scripts/validate-contributors.mjs:104-109 | the loop over the keys appends one message per key outside the allowed set, in key order |
| ContributorValidator.ValidateContributors | scripts/validate-contributors.mjs:22-118 | the script, with its two early exits and its loop over the files, reaches the verdict `Validate` gives |
| ContributorProperties.RejectedFileHasOneError | scripts/validate-contributors.mjs:44-63 | an unreadable file, unparsable file or non-object gets exactly one message and records no name or handle |
| ContributorProperties.NameRule | scripts/validate-contributors.mjs:65-74 | among a file's messages, the `name` ones are: the required message for a missing, non-string or blank name; otherwise the duplicate message exactly when the normalised name was seen; the seen names grow by that name exactly when the name is valid |
| ContributorProperties.GithubRule | scripts/validate-contributors.mjs:76-92 | an absent handle gets no message; a present one that is not a non-blank string (`null` included) gets one; otherwise the duplicate message comes first, exactly when the normalised handle was seen, then the format message when the trimmed handle fails the pattern |
| ContributorProperties.OptionalFieldRule | scripts/validate-contributors.mjs:94-102 | `role` and `bio` each get a message exactly when present and not a non-blank string |
| ContributorProperties.UnexpectedKeyRule | scripts/validate-contributors.mjs:104-109 | a key outside `name`, `github`, `role`, `bio` is reported once per occurrence; an allowed key never; a file with only allowed keys gets no such message |
| ContributorProperties.NormalizeIgnoresCase | scripts/validate-contributors.mjs:69-70 | two names or handles that differ only in ASCII case compare equal |
| ContributorProperties.NormalizeIgnoresSurroundingSpace | scripts/validate-contributors.mjs:69-70 | a name or handle with whitespace added in front of it or after it normalises to the same key, so it is a duplicate of the bare one |
| ContributorProperties.NormalizePaddedNames | scripts/validate-contributors.mjs:69-71 | `" Ada"` and `"Ada "` normalise to the same key, so the second is reported as a duplicate of the first |
| ContributorProperties.HandlePatternShape | scripts/validate-contributors.mjs:88 | the pattern accepts exactly the strings of 1 to 39 letters, digits and hyphens that start and end with a letter or digit |
| ContributorProperties.HandlePatternHyphens | scripts/validate-contributors.mjs:87-88 | repeated inner hyphens are accepted; the empty string and a leading or trailing hyphen are rejected |
| ContributorProperties.HandlePatternRejectsUnderscore | scripts/validate-contributors.mjs:87-88 | an underscore is not allowed in a handle |
| ContributorProperties.HandlePatternLength | scripts/validate-contributors.mjs:87-88 | a handle of 39 characters is accepted and one of 40 is rejected |
| ContributorRun.RunSnocParts | scripts/validate-contributors.mjs:40-110 | the file at position `i` appends its own messages as one block right after the messages of all earlier files, and adds its keys to the seen sets |
| ContributorRun.RunPrefixErrors | scripts/validate-contributors.mjs:40-110 | the messages of the pass over the first files are a prefix of the messages of the whole pass, so later files never change or reorder them |
| ContributorRun.SeenNamesOfRun | scripts/validate-contributors.mjs:69-73 | after the pass over some files, the seen names are exactly the normalised valid names of those files |
| ContributorRun.SeenHandlesOfRun | scripts/validate-contributors.mjs:81-85 | after the pass over some files, the seen handles are exactly the normalised non-blank handles of those files |
| ContributorRun.DuplicateNameRule | scripts/validate-contributors.mjs:69-73 | a valid name is reported as a duplicate exactly when an earlier file has the same normalised name, so the first occurrence is kept and every later one is flagged |
| ContributorRun.DuplicateHandleRule | scripts/validate-contributors.mjs:81-90 | a non-blank handle is reported as a duplicate exactly when an earlier file has the same normalised handle, valid in form or not; the format message follows |
| ContributorRun.FileErrorsEmpty | scripts/validate-contributors.mjs:44-109 | a file adds no message exactly when it passes every single-file check and its name and handle were not seen |
| ContributorRun.NoErrorsIffValid | scripts/validate-contributors.mjs:40-112 | the pass collects no message exactly when every file is good and no two files share a name or a handle |
| ContributorRun.ValidateSucceeds | scripts/validate-contributors.mjs:112-118 | success exactly when the directory is readable, has `.json` files and they form a valid data set; the reported count is the number of files |
| ContributorRun.ValidateFails | scripts/validate-contributors.mjs:112-116 | failure on the data exactly when there are `.json` files and they do not form a valid data set; every message of the pass is reported, in order |
| ContributorRun.ValidateFindsNoFiles | scripts/validate-contributors.mjs:24-33 | the script stops before any check exactly when no entry's name ends with `.json` |
| ContributorCard.Join | src/ContributorCard.jsx:5 | `join` with the separator, the inverse that `SplitJoin` proves `split` has |
| ContributorCard.Split | src/ContributorCard.jsx:5 | `split` always yields at least one piece |
| ContributorCard.SplitJoin | src/ContributorCard.jsx:5 | joining the pieces with the separator gives the name back |
| ContributorCard.SplitPieces | src/ContributorCard.jsx:5 | there is one piece more than there are separators, and no piece holds one |
| ContributorCard.SplitFirst | src/ContributorCard.jsx:5-7 | the first piece runs up to the first space, and the remaining pieces are those of the text after it |
| ContributorCard.Head | src/ContributorCard.jsx:6 | `w[0]` of one piece as `join` renders it: the first character, or nothing for an empty piece; `Heads` and `InitialsByCharacter` use it |
| ContributorCard.Heads | src/ContributorCard.jsx:6 | one entry per piece: its first character, or nothing for an empty piece |
| ContributorCard.Concat | src/ContributorCard.jsx:8 | `join('')` of the kept first characters; `ConcatTwo` and `InitialsByCharacter` state the result |
| ContributorCard.Initials | src/ContributorCard.jsx:4-9 | the initials chain: `split(' ')`, first characters, first two, `join('')`, `toUpperCase`; `InitialsByCharacter` and `InitialsShape` state the result |
| ContributorCard.InitialsByCharacter | src/ContributorCard.jsx:4-9 | the initials are the name's first character unless it is a space, then the character after the first space unless it is a space or the end, in upper case |
| ContributorCard.InitialsShape | src/ContributorCard.jsx:4-9 | at most two initials, with no ASCII lower-case letter |
| ContributorCard.InitialsLeadingSpace | src/ContributorCard.jsx:4-9 | a leading space uses up a slot: `" Ada Lovelace"` gives `"A"` |
| ContributorCard.InitialsDoubledSpace | src/ContributorCard.jsx:4-9 | a doubled space uses up the second slot: `"Ada  Lovelace"` gives `"A"` |
| ContributorCard.InitialsTwoWords | src/ContributorCard.jsx:4-9 | two words give two upper-case initials: `"jo li"` gives `"JL"` |
| ContributorCard.Truthy | src/ContributorCard.jsx:11 | JavaScript truthiness of an optional string, as tested at lines 11, 34, 47 and 48: present and not empty; `AvatarUrlRoundTrip` and `RenderShows` state its use |
| ContributorCard.AvatarUrl | src/ContributorCard.jsx:11-13 | the avatar URL built from a truthy handle, otherwise none; `AvatarUrlRoundTrip` and `AvatarUrlInjective` state it |
| ContributorCard.ProfileUrl | src/ContributorCard.jsx:37 | the profile link's target, the GitHub base URL followed by the handle; `RenderShows` relates it to the avatar URL |
| ContributorCard.AvatarUrlRoundTrip | src/ContributorCard.jsx:11-13 | there is no avatar URL exactly when the handle is falsy (absent or empty); otherwise the handle can be read back from the URL |
| ContributorCard.AvatarUrlInjective | src/ContributorCard.jsx:11-13 | different handles never share an avatar URL |
| ContributorCard.Render | src/ContributorCard.jsx:15-50 | the pieces a card shows: avatar image or initials, name, profile link, role, bio; `RenderShows` states which appear |
| ContributorCard.ShownIf | src/ContributorCard.jsx:47-48 | the `{v && ...}` pieces: the value when truthy, otherwise nothing; `RenderShows` states it for role and bio |
| ContributorCard.RenderShows | src/ContributorCard.jsx:15-50 | the initials show exactly when the handle is falsy; otherwise the avatar image and the `@handle` profile link show together, and the image URL is the profile URL plus `.png?size=96`; role and bio show exactly when truthy, unchanged |

## Left out

- File-system access and process exit are not modelled. Reading the directory (`readdirSync`) and each file (`readFileSync`), printing, and `process.exit` are left out. The listing and each file's read outcome are inputs (`Directory`, `FileContent`). The exit status is implied by the verdict: every verdict except `AllValid` exits with status 1.
- `JSON.parse` is not modelled. A file is either a parse failure carrying the parser's diagnostic, or the parsed value. The parsed object's fields are taken in `Object.keys` order with distinct keys, as the parser produces them. The parser's rules behind that order are not modelled: a repeated key keeps its last value, and integer-like keys come first.
- The wording of messages is not modelled, nor the success line and its plural. A message is the rule it reports, the file it names and the value it quotes.
- JsText.ToLower and JsText.ToUpper map ASCII letters only. The source's `toLowerCase` and `toUpperCase` also map other Unicode letters, so names that differ only in non-ASCII case are treated as different here.
- Strings are sequences of characters, not UTF-16 code units. For a piece of the name whose first character lies outside the Basic Multilingual Plane, `w[0]` in the source yields half a surrogate pair; the model yields the whole character.
- The script's header comment says a file's name should match its `github` handle. The code never checks this, so the model does not either.
- With no `.json` files the script exits before any check, with its own message (`NoContributorFiles`).
- The card's React rendering is not modelled: markup, CSS classes, and the `target` and `rel` attributes of the profile link. Neither is the `onError` handler, which hides a failed image and shows the initials in its place at display time.
- The card takes `name` as a string and `github`, `role` and `bio` as optional strings. Non-string values in the card's data file are not modelled; that file passes through `src/App.jsx`, which is not part of this model, and neither is `vite.config.js`.
- JSON numbers are `real`s. No check looks at their value.

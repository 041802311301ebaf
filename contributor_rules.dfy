/** The rules of the contributor validator (`scripts/validate-contributors.mjs`)
    as functions: what one file adds to the error list and to the two sets of
    names and handles already seen, the pass over all files in input order,
    and the final verdict. The class in `ContributorValidator` runs the same
    rules step by step and is proved equal to these functions. */
module ContributorRules {
  import opened Optional
  import opened JsText
  import opened JsonValue

  /** The only keys a contributor object may carry. */
  const Allowed: set<string> := {"name", "github", "role", "bio"}

  /** What reading and parsing one file gave. */
  datatype FileContent =
    | ReadFailed
    | ParseFailed(message: string)   // the parser's own diagnostic
    | Parsed(value: Json)

  /** One directory entry: its file name and what reading it gave. */
  datatype ContributorFile = ContributorFile(name: string, content: FileContent)

  /** The contributor directory: unreadable, or its entries in listing order. */
  datatype Directory = Unreadable | Listing(entries: seq<ContributorFile>)

  /** The rule a message reports. */
  datatype Rule =
    | CannotBeRead
    | InvalidJson
    | NotAnObject
    | NameRequired
    | DuplicateName
    | GithubNotNonEmptyString
    | DuplicateGithub
    | InvalidGithub
    | RoleNotNonEmptyString
    | BioNotNonEmptyString
    | UnexpectedKey

  /** One error message: the file it names, the rule it reports, and the
      value it quotes (the parser's diagnostic, the `name` or `github` value
      as written in the file, the unexpected key; empty for the rules whose
      message quotes nothing). */
  datatype Err = Err(file: string, rule: Rule, value: string)

  /** What the pass carries from one file to the next. */
  datatype State = State(errors: seq<Err>, seenNames: set<string>, seenGithub: set<string>)

  const Initial: State := State([], {}, {})

  /** How a run ends: the two early exits, failure with the collected errors,
      or success with the number of files checked. */
  datatype Verdict =
    | CannotReadDirectory
    | NoContributorFiles
    | ValidationFailed(errors: seq<Err>)
    | AllValid(fileCount: nat)

  /** The directory entries whose name ends with `.json`, in listing order. */
  function JsonFiles(entries: seq<ContributorFile>): (files: seq<ContributorFile>)
    ensures |files| <= |entries|
    ensures forall f :: f in files ==> f in entries && EndsWith(f.name, ".json")
    ensures forall f :: f in entries && EndsWith(f.name, ".json") ==> f in files
  {
    if entries == [] then []
    else
      (if EndsWith(entries[0].name, ".json") then [entries[0]] else [])
      + JsonFiles(entries[1..])
  }

  /** Filtering a listing filters each part of it, in order: the kept files
      keep their listing order and each entry is kept at most once. */
  lemma {:induction false} JsonFilesAppend(a: seq<ContributorFile>, b: seq<ContributorFile>)
    ensures JsonFiles(a + b) == JsonFiles(a) + JsonFiles(b)
    decreases |a|
  {
    if a == [] {
      assert a + b == b;
    } else {
      assert (a + b)[1..] == a[1..] + b;
      JsonFilesAppend(a[1..], b);
    }
  }

  /** One entry is kept exactly when its name ends with `.json`. */
  lemma JsonFilesOne(e: ContributorFile)
    ensures JsonFiles([e]) == if EndsWith(e.name, ".json") then [e] else []
  {
    assert [e][1..] == [];
  }

  /** A property that holds a string which is not blank after `trim`. */
  predicate IsNonBlankString(v: Option<Json>) {
    v.Some? && v.value.JStr? && Trim(v.value.s) != ""
  }

  /** The form in which names and handles are compared: trimmed, lower case. */
  function Normalize(s: string): string {
    ToLower(Trim(s))
  }

  /** The fields of the file's value when it parsed to an object (not null,
      not an array, not a primitive). */
  function Entry(f: ContributorFile): Option<seq<Field>> {
    if f.content.Parsed? && f.content.value.JObj? then Some(f.content.value.fields) else None
  }

  /** The name the file adds to the seen names, if any. */
  function NameKey(f: ContributorFile): Option<string> {
    if Entry(f).None? then None
    else
      var name := Get(Entry(f).value, "name");
      if IsNonBlankString(name) then Some(Normalize(name.value.s)) else None
  }

  /** The handle the file adds to the seen handles, if any, whether or not
      it has the form of a GitHub user name. */
  function HandleKey(f: ContributorFile): Option<string> {
    if Entry(f).None? then None
    else
      var github := Get(Entry(f).value, "github");
      if IsNonBlankString(github) then Some(Normalize(github.value.s)) else None
  }

  function KeySet(k: Option<string>): set<string> {
    if k.Some? then {k.value} else {}
  }

  // The handle pattern ^[a-zA-Z0-9]([a-zA-Z0-9-]{0,37}[a-zA-Z0-9])?$, piece by piece.

  /** The character class [a-zA-Z0-9]. */
  predicate IsAsciiAlnum(c: char) {
    'a' <= c <= 'z' || 'A' <= c <= 'Z' || '0' <= c <= '9'
  }

  /** The character class [a-zA-Z0-9-]. */
  predicate IsAlnumOrHyphen(c: char) {
    IsAsciiAlnum(c) || c == '-'
  }

  /** [a-zA-Z0-9-]{0,37}. */
  predicate IsHandleMiddle(m: string) {
    |m| <= 37 && forall k :: 0 <= k < |m| ==> IsAlnumOrHyphen(m[k])
  }

  /** The whole pattern, anchored at both ends: a first alphanumeric, then
      optionally the group of a middle and a last alphanumeric. */
  predicate MatchesHandlePattern(s: string) {
    && |s| >= 1
    && IsAsciiAlnum(s[0])
    && (|s| == 1 || (IsHandleMiddle(s[1..|s| - 1]) && IsAsciiAlnum(s[|s| - 1])))
  }

  /** The messages of the `name` rule. */
  function NameErrors(seenNames: set<string>, file: string, fields: seq<Field>): seq<Err> {
    var name := Get(fields, "name");
    if !IsNonBlankString(name) then [Err(file, NameRequired, "")]
    else if Normalize(name.value.s) in seenNames then [Err(file, DuplicateName, name.value.s)]
    else []
  }

  /** The messages of the `github` rule: the duplicate check comes before the
      format check, and the format check reads the trimmed value in its
      original case. */
  function GithubErrors(seenGithub: set<string>, file: string, fields: seq<Field>): seq<Err> {
    var github := Get(fields, "github");
    if github.None? then []
    else if !IsNonBlankString(github) then [Err(file, GithubNotNonEmptyString, "")]
    else
      (if Normalize(github.value.s) in seenGithub then [Err(file, DuplicateGithub, github.value.s)] else [])
      + (if MatchesHandlePattern(Trim(github.value.s)) then [] else [Err(file, InvalidGithub, github.value.s)])
  }

  /** The message of an optional string field (`role`, `bio`). */
  function OptionalFieldErrors(file: string, fields: seq<Field>, key: string, rule: Rule): seq<Err> {
    var v := Get(fields, key);
    if v.Some? && !IsNonBlankString(v) then [Err(file, rule, "")] else []
  }

  /** One message per key outside the allowed set, in key order. */
  function UnexpectedKeyErrors(file: string, keys: seq<string>): (es: seq<Err>)
    ensures |es| <= |keys|
  {
    if keys == [] then []
    else
      UnexpectedKeyErrors(file, keys[..|keys| - 1])
      + (if keys[|keys| - 1] in Allowed then [] else [Err(file, UnexpectedKey, keys[|keys| - 1])])
  }

  /** Everything the source pushes onto the error list for one file, in order. */
  function FileErrors(st: State, f: ContributorFile): seq<Err> {
    match f.content
    case ReadFailed => [Err(f.name, CannotBeRead, "")]
    case ParseFailed(message) => [Err(f.name, InvalidJson, message)]
    case Parsed(v) =>
      if !v.JObj? then [Err(f.name, NotAnObject, "")]
      else
        NameErrors(st.seenNames, f.name, v.fields)
        + GithubErrors(st.seenGithub, f.name, v.fields)
        + OptionalFieldErrors(f.name, v.fields, "role", RoleNotNonEmptyString)
        + OptionalFieldErrors(f.name, v.fields, "bio", BioNotNonEmptyString)
        + UnexpectedKeyErrors(f.name, Keys(v.fields))
  }

  /** One iteration of the loop over the files. */
  function Step(st: State, f: ContributorFile): State {
    State(st.errors + FileErrors(st, f),
          st.seenNames + KeySet(NameKey(f)),
          st.seenGithub + KeySet(HandleKey(f)))
  }

  /** The loop over `files` in order, from the state `st`. Errors are only
      ever appended and the seen sets only grow. */
  function Run(st: State, files: seq<ContributorFile>): (r: State)
    decreases |files|
    ensures st.errors <= r.errors
    ensures st.seenNames <= r.seenNames && st.seenGithub <= r.seenGithub
  {
    if files == [] then st
    else Step(Run(st, files[..|files| - 1]), files[|files| - 1])
  }

  /** The run over one more file is one more step. */
  lemma RunSnoc(files: seq<ContributorFile>, i: nat)
    requires i < |files|
    ensures Run(Initial, files[..i + 1]) == Step(Run(Initial, files[..i]), files[i])
  {
    assert files[..i + 1][..i] == files[..i];
  }

  /** The whole script: list the directory, keep the `.json` files, stop if
      there are none, check every file, then decide. */
  function Validate(dir: Directory): (v: Verdict)
    ensures v.ValidationFailed? ==> v.errors != []
    ensures v.AllValid? ==> v.fileCount > 0
  {
    match dir
    case Unreadable => CannotReadDirectory
    case Listing(entries) =>
      var files := JsonFiles(entries);
      if |files| == 0 then NoContributorFiles
      else
        var errors := Run(Initial, files).errors;
        if |errors| > 0 then ValidationFailed(errors) else AllValid(|files|)
  }

  /** The errors of `es` whose rule is one of `rules`, in order. */
  function Only(es: seq<Err>, rules: set<Rule>): seq<Err> {
    if es == [] then []
    else (if es[0].rule in rules then [es[0]] else []) + Only(es[1..], rules)
  }
}

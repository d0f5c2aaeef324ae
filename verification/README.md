# Repository-Analyzer core in Dafny

This project models the deterministic core of the GitHub Repository
Analyzer and proves properties about it. The analyzer takes a repository
URL and does the following:

- it parses the URL into owner and repository name;
- it walks the repository's contents through the GitHub contents API, honouring the rate limit;
- it builds a nested directory structure, counts the files, and picks out the code files it analyses;
- for each analysed file, it runs per-language regular expressions that collect functions and classes;
- it derives a feature list (languages plus detected frameworks);
- it renders documentation: a drawing of the directory tree, and function and class tables;
- its AI helper picks a Gemini model, writes the extracted elements into a prompt, and falls back to a plain README.

The model is functional. Entities are immutable datatypes, operations are
pure functions, and one operation, the model selection, is a loop. The
network, the clock, the regular-expression engine and the AI service are
parameters or are left out:

- The remote repository is a finite `Walker.Listing`. Each directory listing holds the listings of its sub-directories and, for every file, the text its download gave (or its absence).
- The regular expressions are the parameter `scan: (Language, string) -> Scan`. It returns the match records that the patterns found in a file.
- The current time is an integer `now`. The URL is given as its path component, the part `urlparse` extracts.

Modules, following the source:

| file | module | models |
|---|---|---|
| `wrappers.dfy` | `Wrappers` | `Option`, `Result` |
| `strings.dfy` | `Strings` | `startswith`, `in`, ASCII `lower`, `strip`, `split`, `join`, string `<=` |
| `repo_url.dfy` | `RepoUrl` | owner and repository parsing in `__init__` |
| `throttle.dfy` | `Throttle` | one step of `_make_api_request` |
| `extractors.dfy` | `Extractors` | `_extract_python/js/java/kotlin_elements` on abstract match records |
| `repo_tree.dfy` | `RepoTree` | the nested directory structure |
| `walker.dfy` | `Walker` | `fetch_directory_contents`, `_is_code_file`, `_analyze_file_content` |
| `walker_properties.dfy` | `WalkerProperties` | properties of the walk |
| `files_key.dfy` | `FilesKey` | the same walk level on the dictionary with the reserved `__files` key, as written |
| `features.dfy` | `Features` | `extract_features` |
| `sorting.dfy` | `Sorting` | Python's `sorted` (insertion sort under a total preorder) |
| `tree_print.dfy` | `TreePrint` | `print_structure` (both copies are the same code) |
| `doc_tables.dfy` | `DocTables` | `hash_code` filter, the 30-row function and class tables |
| `ai_analyzer.dfy` | `AiAnalyzer` | model selection, prompt lines, `_generate_basic_readme` |

## Model

| member | source | states |
|---|---|---|
| RepoUrl.ParseRepoPath | github_analyzer_api.py:31-38 | Parsing fails, with "Invalid GitHub repository URL", exactly when the '/'-stripped path has no '/' (fewer than two segments). Otherwise owner and name are '/'-free, and `owner/name` is the first two segments of the stripped path, followed by its end or a '/'. |
| RepoUrl.ParseRepoUrlPath | github_analyzer_api.py:31-38 | Any path `/owner/name`, followed by nothing or by any tail starting with '/' (trailing slashes such as `/owner/name/` included), parses back to exactly that owner and name. |
| Strings.StripRightAfter | github_analyzer_api.py:32 | `rstrip('/')` after a prefix that does not end in '/' only strips the part after the prefix. |
| Strings.Split | github_analyzer_api.py:32 | `str.split` with one separator: at least one piece, no piece holds the separator, joining the pieces gives the input back, and there is exactly one piece iff the separator does not occur. |
| Strings.Strip | github_analyzer_api.py:32 | `strip('/')` removes exactly a leading and a trailing run of '/': the result is a slice `s[i..j]` with only '/' before `i` and after `j`, and it neither starts nor ends with '/'. A string without them is unchanged. |
| Throttle.WaitSeconds | github_analyzer_api.py:75 | The wait is at least 1 second and at least `reset - now + 1`, and is one of the two. |
| Throttle.Decide | github_analyzer_api.py:66-84 | The step retries iff the answer is 403 with remaining quota 0, where a missing header counts as 0. A retry reuses the same URL and parameters and waits until after the reset time. The step yields data iff the answer is neither throttled nor a 4xx/5xx status and has a JSON body. A failed connection yields no data and keeps the recorded quota; otherwise the quota becomes the header value. |
| Throttle.RetryWaitIsTight | github_analyzer_api.py:73-78 | A throttled answer waits exactly 1 second when the reset time has passed, and otherwise until one second after it. |
| Throttle.ForbiddenWithQuotaFails | github_analyzer_api.py:73-84 | A 403 with quota left is not retried; it fails with no data. |
| Extractors.PublicDefs | github_analyzer_api.py:384-385 | A match is kept iff its name is not private (one leading '_' but not two), and the result is never longer than the matches. |
| Extractors.PublicDefsAppend | github_analyzer_api.py:384-385 | The filter runs match by match: filtering a concatenation filters each part and joins the results. With `PublicDefsSingle` (one match is kept iff it is public), the result is the public matches in match order, with their multiplicities. |
| Extractors.PublicDefsSingle | github_analyzer_api.py:384-385 | A single match is kept iff its name is not private. |
| Extractors.Extract | github_analyzer_api.py:375-511 | Extraction only appends to both collections. Every class match gives one class record with the file, the language tag, and the base group, or "" when the group is absent. Every new function record names the file. |
| Extractors.PythonFunctions | github_analyzer_api.py:378-392 | The Python extractor appends one record per public def match, in match order, with that match's name and parameters, the file and language "Python". A record is added iff it comes from a public match. |
| Extractors.PrivacyFilterExamples | github_analyzer_api.py:384 | `_helper` and `_` are private; `__init__`, `__` and `run` are not. |
| Extractors.JavaScriptFunctions | github_analyzer_api.py:410-427 | The JavaScript extractor adds every function match and every arrow match, the latter with params "arrow function", all with language "JavaScript". |
| Extractors.JavaFunctions | github_analyzer_api.py:455-465 | The Java extractor appends exactly one record per method match, in match order, unfiltered, with the match's name and parameters, the file and language "Java". |
| Extractors.KotlinFunctions | github_analyzer_api.py:483-511 | The Kotlin extractor appends one record per public function match, in match order, with language "Kotlin". Then it appends one record per extension match, in order and unfiltered, named `Receiver.name` with language "Kotlin (Extension)". Nothing else is added. |
| Walker.Extension | github_analyzer_api.py:337 | `os.path.splitext`: there is an extension iff some dot `d` qualifies: no '.' or '/' after it, and a character before it in the same path component that is not a dot. The extension is then `name[d..]`. |
| Walker.ExtensionExamples | github_analyzer_api.py:337 | "main.py" has extension ".py" and "app.test.js" has ".js". |
| Walker.DotFileHasNoExtension | github_analyzer_api.py:337 | A name whose only dot is its first character, such as ".bashrc", has no extension. |
| Walker.DotOnlyInDirectory | github_analyzer_api.py:337 | A dot that occurs only in a directory part of the path gives no extension. |
| Walker.ExtractorsCoverPartOfAllowList | github_analyzer_api.py:337-370 | The allow-list has 13 entries. Every extension with an extractor is on it. `.cpp .c .go .rb .php` are on it but reach no extractor. |
| Walker.AnalyseFileContent | github_analyzer_api.py:347-370 | A file larger than 500000 bytes (a missing size counts as 0) leaves the collections unchanged, and so does one without a download URL, with a failed download or without an extractor. Otherwise it is the extractor for its lower-cased extension run on the downloaded text, recorded under the file's path. |
| RepoTree.PutChild | github_analyzer_api.py:314 | `result[name] = subtree`: the directory names grow by exactly the name, the new child is present, nothing else is added, and a new name is appended at the end. |
| RepoTree.PutChildReplaces | github_analyzer_api.py:314 | Assignment replaces: every child with another name stays. On a dictionary (unique names), the names stay unique, the only child under `name` is the new one, and an existing name keeps the size. |
| RepoTree.EntriesInDirsPermutation | github_analyzer_web.py:266 | The number of entries under a list of directories does not depend on their order. |
| WalkerProperties.FailedListingIsEmpty | github_analyzer_api.py:305-306 | A failed, non-list or empty listing yields the empty structure and leaves `file_count` and the collections unchanged. |
| WalkerProperties.WalkVisitsReachableFiles | github_analyzer_api.py:308-325 | The walk's effect on `file_count` and the collections is that of visiting, in order, the kept files reachable through kept directories. |
| WalkerProperties.WalkRun | github_analyzer_api.py:315-323 | `file_count` grows by exactly the number of reachable kept files. The collections are only appended to. Every appended record names the path of one of those files, which is a code file that passed the size, URL and download checks. |
| WalkerProperties.WalkIsClean | github_analyzer_api.py:310-311 | No entry starting with '.' or named `node_modules`/`__pycache__` appears anywhere in the structure, as a directory or as a file. |
| WalkerProperties.WalkLevel | github_analyzer_api.py:308-319 | A level's file list is exactly its kept non-directory names, in listing order. It is non-empty iff some file was kept. Its directories are exactly the kept directory entries. |
| WalkerProperties.WalkFileTotal | github_analyzer_api.py:308-325 | With unique names per directory, the structure holds exactly as many file names as there are reachable kept files. |
| WalkerProperties.WalkCountMatchesTree | github_analyzer_api.py:319 | With unique names per directory, `file_count` grows by exactly the number of file names in the structure. |
| FilesKey.LevelFilesWithoutCollision | github_analyzer_api.py:315-319 | Without a sub-directory called `__files`, the level succeeds. The key then holds the previous list followed by the kept file names, and is present only once a file was kept. |
| FilesKey.LevelStep | github_analyzer_api.py:310-319 | Without a sub-directory called `__files`, handling one entry of the listing keeps `__files` a file list and leaves unchanged what it will finally hold. |
| FilesKey.DirectoryThenFileFails | github_analyzer_api.py:313-318 | A sub-directory `__files` followed by a file makes the walk fail. |
| FilesKey.FileThenDirectoryLosesFile | github_analyzer_api.py:313-318 | A file followed by a sub-directory `__files` loses the file from the structure. |
| Features.DetectedFrom | github_analyzer_api.py:548-553 | For a framework table, a framework is reported iff one of its lower-cased indicators is a substring of the lower-cased structure text; `extract_features` applies it to the 14-entry table. |
| Features.Dedup | github_analyzer_api.py:556 | Deduplication keeps exactly the same members, with no duplicates. |
| Features.ExtractFeatures | github_analyzer_api.py:521-556 | The result has no duplicates. A name is in it iff it is a language key, or the structure is non-empty and the name is a detected framework. An empty structure gives only the languages. |
| Features.CaseInsensitive | github_analyzer_api.py:551 | Texts that agree after lower-casing give the same features. |
| Features.LanguageKept | github_analyzer_api.py:524-525 | Every language key is among the features. |
| Features.DockerfileExample | github_analyzer_api.py:537-551 | With languages Python and JavaScript and a structure mentioning `Dockerfile`, the features include Python, JavaScript and Docker, each once. |
| Sorting.SortPermutation | github_analyzer_web.py:293 | Sorting keeps the elements with their multiplicities. |
| Sorting.SortSorted | github_analyzer_web.py:293 | Under a total preorder, the sorted result is ordered. |
| Sorting.SortStable | github_analyzer_web.py:293 | Sorting is stable: for every key, the elements ranked equal to it appear in the result in their input order. |
| Sorting.InsertStable | github_analyzer_web.py:293 | Inserting an element puts it before every element ranked equal to it, and keeps the order of those elements. |
| TreePrint.LevelOrder | github_analyzer_web.py:260-265 | Each level lists its files in ascending order and its directories in ascending order of name. Each group is a rearrangement of the level's own entries. |
| TreePrint.SortTreeEntries | github_analyzer_web.py:260-265 | Sorting every level keeps the number of files and directories of each level and of the whole tree. |
| TreePrint.PrintLength | github_analyzer_web.py:253-273 | The drawing has one line per file and per directory, at every depth. |
| TreePrint.PrintPrefix | github_analyzer_web.py:262-272 | Every line of a drawing starts with the prefix it was drawn behind. |
| TreePrint.PrintFileLine | github_analyzer_web.py:259-262 | The first lines are the sorted files, each behind the prefix. The last file is marked '└── ' only when the level has no directories; every other file gets '├── '. |
| TreePrint.PrintDirBlock | github_analyzer_api.py:215-235 | After the files, each sorted directory has a header `prefix + connector + name + "/"`, with '└── ' only for the final directory. Its own drawing follows directly, behind the prefix extended by four spaces for the final directory and by "│   " otherwise. |
| TreePrint.LastConnectorOnlyAtEnd | github_analyzer_web.py:261 | A file line carries '└── ' iff it is the last file of a level without directories. |
| DocTables.HashCode | github_analyzer_web.py:25-27 | The hash is a natural number of at most `0x10FFFF` per character. |
| DocTables.HashCodeAppend | github_analyzer_web.py:27 | The hash of a concatenation is the sum of the hashes, so the hash is the sum over the characters and 0 for "". |
| DocTables.HashCodePermutation | github_analyzer_web.py:27 | Strings with the same characters and multiplicities hash alike. |
| DocTables.KeyLeTransitive | github_analyzer_web.py:293 | Comparison of `(file, name)` tuples is transitive (and, with `KeyLeTotal`, total). |
| DocTables.TruncateShowsSmallest | github_analyzer_web.py:293-300 | The table shows min(n, 30) rows, ordered, taken from the input. The overflow note appears iff n > 30 and reports n - 30. No omitted record sorts before a shown one. |
| DocTables.FunctionsTableShape | github_analyzer_web.py:287-300 | The functions section is absent iff there are no functions. Otherwise it shows the 30 smallest by (file, name), in order, with the overflow count. |
| DocTables.ClassesTableShape | github_analyzer_web.py:303-316 | The same for the classes section. |
| AiAnalyzer.SelectModel | ai_analyzer.py:36-47 | The first non-vision name containing "gemini-2.5-flash" wins, even over an earlier generic Gemini name. Without one, the first non-vision name containing "gemini" wins. Without either, the result is "models/gemini-2.5-flash". The result is listed or that default, and never contains "vision". |
| AiAnalyzer.SelectModelAsWritten | ai_analyzer.py:28-47 | When the listing can be read only once, the debug print consumes it, and the selection always ends with "models/gemini-2.5-flash". The print shows every listed name. |
| AiAnalyzer.ConsumedListingExample | ai_analyzer.py:28-47 | With only "models/gemini-2.5-flash-lite" listed, the constructor as written picks the default, while the selection over the names picks the listed model. |
| AiAnalyzer.FunctionLineRoundTrip | ai_analyzer.py:185-188 | A function line `- name(params) in file` parses back to its name, parameters and file, provided the name has no `(` and the parameters no `)`. A default such as `def f(x=g()):` breaks the second premise. |
| AiAnalyzer.ClassLineExtends | ai_analyzer.py:190-194 | A class line with a base is the line without a base plus ` extends X`. Without a base, the line is exactly `- name in file`. |
| AiAnalyzer.ClassLineRoundTrip | ai_analyzer.py:190-194 | A class line parses back to its name, file and base, and the base is empty iff no ` extends ` was written, provided the name and the file have no space. |
| AiAnalyzer.FunctionsTextLines | ai_analyzer.py:185-188 | The functions text splits back into one line per function, in order. |
| AiAnalyzer.ClassesTextLines | ai_analyzer.py:190-194 | The classes text splits back into one line per class, in order. |
| AiAnalyzer.HeadShape | ai_analyzer.py:303-311 | The README starts with the title: the name, "Unknown Repository" when the key is missing, and "None" when it is `null`. A description paragraph follows iff the description is a non-empty string. |
| AiAnalyzer.BasicReadmeLayout | ai_analyzer.py:300-338 | The README is the head followed by the fixed 14 lines, plus a Technologies section (heading, blank, one bullet per language, blank) only for non-empty languages and likewise a Features section. It starts with the head and its last line names the license. |
| AiAnalyzer.BasicReadmeTechnologies | ai_analyzer.py:313-317 | For non-empty languages, the line after the head is "## Technologies" and the bullets follow, one per language, in order. |
| AiAnalyzer.LicenseDefault | ai_analyzer.py:335 | The license line names the license when the metadata has a license object with a string name, and reads "None" for a `null` name. Anything else reads "Not specified". |
| AiAnalyzer.BasicReadmeCorrection | ai_analyzer.py:335 | The as-written README fails iff the license is `null`. On every other input it equals the corrected README. |
| AiAnalyzer.NullLicenseFails | ai_analyzer.py:335 | Metadata with `"license": null` makes the as-written README fail, while the corrected one reads "Not specified". |

## Left out

- URL parsing by `urlparse`: the model starts from the path component.
- HTTP requests, headers other than the two rate-limit ones, `time.sleep`, `time.time` and print logging: these are I/O. `now` is an integer parameter.
- The recursion of `_make_api_request` after a wait: the model is a single decision step that returns the request to repeat.
- Throttle.Decide: it does not model the `ValueError` raised when a rate-limit header is not an integer, and it models `now` as an integer rather than a float.
- The regular expressions of the extractors: their matches are an input. For example, the plain Kotlin function pattern also matches extension functions, and the model cannot see which matches overlap.
- `str(self.repo_structure)`: the structure text searched by `extract_features` is an opaque string parameter.
- Features.Dedup: it keeps first occurrences in order, while `list(set(...))` has an unspecified order. Only membership and the absence of duplicates are stated.
- Strings.Lower: it lower-cases ASCII letters only, while Python's `lower` is Unicode-wide (the Kelvin sign, for example, lowers to 'k').
- Walker.AnalyseFileContent: it reads a missing size as 0 but does not model the `TypeError` a JSON `null` size would raise.
- TreePrint.Print: it returns the list of lines; the source ends each line with "\n" and concatenates them.
- AiAnalyzer.BasicReadme: it returns the list of lines (as does AiAnalyzer.BasicReadmeAsWritten), while the source returns one string with every line ended by "\n". A description or other field that contains "\n" becomes several lines of that string but stays one line of the model.
- DocTables.FunctionsTable: the markdown text of each table row is not modelled, only which records are shown, in which order, and the overflow count.
- DocTables.HashCode: `str(s)` of non-string template values is not modelled. The input is a string.
- base64 decoding of the README, `json.loads` in `_parse_ai_response`, all `genai` calls and the prompt template text.
- The model list comes from `genai.list_models()`. AiAnalyzer.SelectModel takes the names as a sequence, and the exception path when listing fails is not modelled.
- AiAnalyzer.BasicReadmeAsWritten: a `null` or non-object `repo_info`, and non-string names, descriptions or license names, are not modelled. Python would fail on the first or print the value's `str`. A missing key and `null` are modelled apart.
- The Flask routes, sessions, pickle storage, uuid generation and response headers of the web front end.
- The language percentages in `generate_readme` (floating point) and the rest of its text.
- Python's `None` values inside element records, such as a missing `name` printed as "None": records always carry strings.

## Findings

| source | as written | input that shows it | evidently intended | confidence | as-written member | corrected member |
|---|---|---|---|---|---|---|
| github_analyzer_api.py:313-318 | Sub-directories and the file list share one dictionary, and files go under the reserved key `__files`. | A directory holding a sub-directory `__files` and then a file `main.py`: the append hits a dictionary and raises `AttributeError`. With the file listed first, the sub-directory overwrites the file list and `main.py` vanishes from the structure while still being counted. | Directories and files are kept apart, so every kept file is listed and no name collides. | not executed | FilesKey.LevelAsWritten (FilesKey.DirectoryThenFileFails, FilesKey.FileThenDirectoryLosesFile) | Walker.WalkListing (WalkerProperties.WalkLevel, WalkerProperties.WalkCountMatchesTree) |
| ai_analyzer.py:335 | `repo_data.get('repo_info', {}).get('license', {}).get('name', 'Not specified')` | Repository metadata with `"license": null`, which the GitHub API returns for unlicensed repositories: `None.get` raises `AttributeError`. | The license line reads "Not specified". | not executed | AiAnalyzer.BasicReadmeAsWritten (AiAnalyzer.NullLicenseFails) | AiAnalyzer.BasicReadme (AiAnalyzer.BasicReadmeCorrection, AiAnalyzer.LicenseDefault) |
| ai_analyzer.py:28-36 | `models = genai.list_models()`, then a debug print iterates `models` in a list comprehension, then `for model in models:` selects. | Any listing that contains a flash model, such as `models/gemini-2.5-flash-lite`: `list_models` yields the names through a generator, which the print exhausts, so the loop body never runs and the fallback name is used. | The loop sees every listed name, and the first flash model (or else the first Gemini model) is used. | not executed; relies on `list_models` returning a one-shot generator | AiAnalyzer.SelectModelAsWritten (AiAnalyzer.ConsumedListingExample) | AiAnalyzer.SelectModel |

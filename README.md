# cimet-extract-lib, modelled in Dafny

This project models the core of cimet-extract-lib. That library reads the Java
sources and configuration files of a microservice system and builds an
intermediate representation (IR) of it:
- each microservice has its controllers, services, repositories, entities and feign clients;
- each class has its methods, endpoints, method calls and REST calls.

The library also extracts the changes between two Git commits as a system
delta. It merges such a delta into an existing IR, matches REST calls to
endpoints, and builds the call flows from controllers to repositories.

The model has two layers:
- Value-level functions state what each operation computes. Lemmas prove its
  properties: round trips of the JSON encoding, validity of the IR kept by
  every merge step, the matching rules, the flows, and the delta extraction.
- Where the Java code mutates objects or runs loops, a class or a method with
  loop invariants does the same, and its `ensures` ties it to the value-level
  function.

Modules, one file each:
- `Wrappers` and `Outcomes` (`wrappers.dfy`): Option and the outcomes of a Java
  computation: a value, a non-terminating loop, or a thrown exception.
- `JavaStrings`: the `String` operations the library relies on.
- `FileUtils`, `StringParserUtils`, `EndpointTemplate`, `RestCallTemplate`,
  `Annotations`: path and URL handling, and the annotation parsers.
- `JavaAst`: the parsed Java the library consumes.
- `Ir`, `MicroserviceModel`, `Microservices`, `SystemModel`, `Systems`: the IR entities and the
  microservice system with its orphan pool.
- `SourceToObject`: one source file to an IR class.
- `Json`, `Serialization`: the JSON form of the IR and of deltas.
- `Deltas`, `Git`, `DeltaExtraction`: the delta entities, diff filtering and
  delta extraction.
- `MergeModel`, `Merging`: merging a delta into an IR.
- `Matching`, `Flows`: endpoint matching and flow construction.
- `NonJson`: the Docker and Gradle readers.

Citations are relative to the repository root. Each row names the Dafny member
whose contract states the property.

## Model

| member | source | states |
|---|---|---|
| FileUtils.GetRepositoryPath | src/main/java/edu/university/ecs/lab/common/utils/FileUtils.java:35-37 | the repository path is the clone directory, the separator and the repository name |
| FileUtils.IsValidFile | src/main/java/edu/university/ecs/lab/common/utils/FileUtils.java:128-141 | a path is valid exactly when it does not contain `.github` and ends with one of `pom.xml`, `.java`, `.yml`, `build.gradle` |
| FileUtils.FirstSuffix | src/main/java/edu/university/ecs/lab/common/utils/FileUtils.java:134-140 | the loop over the suffixes answers true exactly when some suffix ends the path |
| FileUtils.IsConfigurationFile | src/main/java/edu/university/ecs/lab/common/utils/FileUtils.java:150-152 | a configuration file is always valid, and a `.java` path never is one |
| FileUtils.GithubNeverValid | src/main/java/edu/university/ecs/lab/common/utils/FileUtils.java:130-132 | a path mentioning `.github` is neither valid nor a configuration file |
| FileUtils.ValidFileSuffixes | src/main/java/edu/university/ecs/lab/common/utils/FileUtils.java:15 | outside `.github`, validity is the disjunction of the four listed suffixes |
| FileUtils.ConfigurationFileIff | src/main/java/edu/university/ecs/lab/common/utils/FileUtils.java:150-152 | both directions: a configuration file is a valid file not ending in `.java` |
| FileUtils.GitLocalRoundTrip | src/main/java/edu/university/ecs/lab/common/utils/FileUtils.java:67-80 | on a `/` system, turning a git path into a local path and back gives the git path |
| FileUtils.GitLocalRoundTripSep | src/main/java/edu/university/ecs/lab/common/utils/FileUtils.java:67-80 | the same round trip holds for any one-character separator absent from the git path |
| FileUtils.GitPathNoFileNameDrops | src/main/java/edu/university/ecs/lab/common/utils/FileUtils.java:100-108 | the last `/`-separated component (the file name) is removed and the directory kept |
| FileUtils.GitPathNoFileNameShort | src/main/java/edu/university/ecs/lab/common/utils/FileUtils.java:103-107 | a path without `/` yields `/` |
| FileUtils.GetGitPathNoFileName | src/main/java/edu/university/ecs/lab/common/utils/FileUtils.java:100-108 | specified by `GitPathNoFileNameDrops` and `GitPathNoFileNameShort` |
| StringParserUtils.RemoveOuterQuotationsStrips | src/main/java/edu/university/ecs/lab/intermediate/utils/StringParserUtils.java:24-29 | a string of length at least two that starts and ends with `"` loses exactly its first and last character |
| StringParserUtils.RemoveQuoteRoundTrip | src/main/java/edu/university/ecs/lab/intermediate/utils/StringParserUtils.java:24-29 | removing the quotes from a quoted string gives back the string before quoting |
| StringParserUtils.RemoveOuterQuotationsKeeps | src/main/java/edu/university/ecs/lab/intermediate/utils/StringParserUtils.java:24-29 | a string shorter than two characters, or not quoted at both ends, is returned unchanged |
| StringParserUtils.SimplifyNoBraceUnchanged | src/main/java/edu/university/ecs/lab/intermediate/utils/StringParserUtils.java:37-39 | a URL without `{` is not changed by simplification |
| StringParserUtils.SimplifyGroup | src/main/java/edu/university/ecs/lab/intermediate/utils/StringParserUtils.java:37-39 | a brace-free `{...}` group after brace-free text becomes `{?}`; the text before it is kept and the rest is simplified on its own |
| StringParserUtils.SimplifyKeepsFirstBrace | src/main/java/edu/university/ecs/lab/intermediate/utils/StringParserUtils.java:37-39 | simplification keeps the kind of the first brace in the URL |
| StringParserUtils.SimplifyIdempotent | src/main/java/edu/university/ecs/lab/intermediate/utils/StringParserUtils.java:37-39 | simplifying a simplified URL changes nothing |
| Ir.NewEndpoint | src/main/java/edu/university/ecs/lab/common/models/ir/Endpoint.java:40-44 | the endpoint carries every field of the method plus the given URL and verb |
| Ir.NewRestCall | src/main/java/edu/university/ecs/lab/common/models/ir/RestCall.java:42-47 | all eight method-call fields are copied unchanged and the URL and verb are the given ones |
| Ir.NewMethodCall | src/main/java/edu/university/ecs/lab/common/models/ir/MethodCall.java:48-58 | each constructor argument lands in its own field, including the swapped order of object type and object name |
| Ir.NewJClass | src/main/java/edu/university/ecs/lab/common/models/ir/JClass.java:58-69 | name, path, package and role are the given ones and every collection starts empty |
| Ir.NewConfigFile | src/main/java/edu/university/ecs/lab/common/models/ir/ConfigFile.java:15-20 | path, name and data are the given ones and the file type is CONFIG whatever type is passed |
| Ir.AddConfig | src/main/java/edu/university/ecs/lab/common/models/ir/ProjectFile.java:13 | adding a configuration file equal (by name, path and type) to one already present changes nothing; otherwise it is appended; afterwards an equal file is present |
| Ir.AddOrphan | src/main/java/edu/university/ecs/lab/common/models/ir/MicroserviceSystem.java:76 | adding a file to the orphan pool keeps the pool when an equal file is present and appends it otherwise |
| Ir.RemoveOrphan | src/main/java/edu/university/ecs/lab/common/models/ir/MicroserviceSystem.java:96 | removal never grows the pool, leaves no file equal to the removed one and keeps every other file |
| Ir.GetEndpoints | src/main/java/edu/university/ecs/lab/common/models/ir/JClass.java:110-115 | a class that is neither a controller nor a REST repository resource has no endpoints; otherwise the endpoints are exactly its methods that are Endpoints |
| Ir.GetRestCalls | src/main/java/edu/university/ecs/lab/common/models/ir/JClass.java:123-126 | the REST calls are exactly the calls of the class that are RestCalls |
| Ir.RestCallsOfAppend | src/main/java/edu/university/ecs/lab/common/models/ir/JClass.java:125 | the filter keeps list order: filtering a concatenation concatenates the filtered parts |
| Ir.UpdateMicroserviceName | src/main/java/edu/university/ecs/lab/common/models/ir/JClass.java:133-136 | everything but the service name of the methods and calls is kept, and every method and call now carries the new name |
| Ir.UpdateMicroserviceNameKeeps | src/main/java/edu/university/ecs/lab/common/models/ir/JClass.java:133-136 | each re-stamped method and call equals the original with only its service name replaced |
| Ir.UpdateMicroserviceNameLastWins | src/main/java/edu/university/ecs/lab/common/models/ir/JClass.java:133-136 | re-stamping twice is the same as re-stamping once with the second name |
| Ir.StampKeepsRestCalls | src/main/java/edu/university/ecs/lab/common/models/ir/JClass.java:133-136 | re-stamping does not change which calls are RestCalls |
| Annotations.ParseAttributes | src/main/java/edu/university/ecs/lab/common/models/ir/Annotation.java:68-88 | the loop over the pairs builds exactly the map of the specification, for marker, single-member and normal annotations |
| Annotations.LiteralPairsSpec | src/main/java/edu/university/ecs/lab/common/models/ir/Annotation.java:79-84 | both directions: a key is in the map exactly when some pair with that name has a string-literal value, and it maps to the value of the last such pair |
| Annotations.MarkerHasNoAttributes | src/main/java/edu/university/ecs/lab/common/models/ir/Annotation.java:71-72 | a marker annotation has no attributes |
| Annotations.SingleMemberAttributes | src/main/java/edu/university/ecs/lab/common/models/ir/Annotation.java:73-78 | a single-member annotation has the one attribute `default` exactly when its value is a string literal, and none otherwise |
| Annotations.FromExpr | src/main/java/edu/university/ecs/lab/common/models/ir/Annotation.java:25-29 | the annotation takes the expression's name and the given package; a marker has no attributes and a single-member annotation at most `default` |
| Annotations.ContentsSpec | src/main/java/edu/university/ecs/lab/common/models/ir/Annotation.java:42-44 | the contents are empty exactly when there are no attributes, and every attribute occurs in them as `key=value` |
| StringParserUtils.RemoveOuterQuotations | src/main/java/edu/university/ecs/lab/intermediate/utils/StringParserUtils.java:24-29 | specified by `RemoveOuterQuotationsStrips`, `RemoveOuterQuotationsKeeps` and `RemoveQuoteRoundTrip`: one quote goes from each end of a quoted string, anything else is kept |
| StringParserUtils.SimplifyEndpointURL | src/main/java/edu/university/ecs/lab/intermediate/utils/StringParserUtils.java:37-39 | specified by `SimplifyNoBraceUnchanged`, `SimplifyGroup`, `SimplifyKeepsFirstBrace` and `SimplifyIdempotent`: each `{...}` group becomes `{?}`, brace-free text is kept, and simplifying twice is simplifying once |
| Annotations.Attributes | src/main/java/edu/university/ecs/lab/common/models/ir/Annotation.java:68-88 | specified by the loop `ParseAttributes`, whose result it is, and by `MarkerHasNoAttributes` and `SingleMemberAttributes` |
| Annotations.GetContents | src/main/java/edu/university/ecs/lab/common/models/ir/Annotation.java:42-44 | the `k=v` entries in iteration order joined by commas; specified by `ContentsSpec`: empty exactly when there are no attributes, and every attribute occurs in it as `k=v` |
| EndpointTemplate.HttpFromMappingTable | src/main/java/edu/university/ecs/lab/common/models/enums/EndpointTemplate.java:101-122 | both directions for each verb: GET, POST, DELETE, PUT and PATCH come from exactly their two spellings, and any other name gives ALL |
| EndpointTemplate.ClassPrefix | src/main/java/edu/university/ecs/lab/common/models/enums/EndpointTemplate.java:28-40 | the prefix loop returns the class-level prefix of the specification: the last `value` pair of a normal mapping, or the single member, without quotes |
| EndpointTemplate.MappingPairs | src/main/java/edu/university/ecs/lab/common/models/enums/EndpointTemplate.java:42-63 | the pair loop returns the method path of the specification and the verb that, once ALL falls back to the mapping's name, is the specified verb |
| EndpointTemplate.New | src/main/java/edu/university/ecs/lab/common/models/enums/EndpointTemplate.java:25-92 | the constructor builds exactly the template of the specification: verb, the mapping's name and the final URL |
| EndpointTemplate.PrefixIgnoresPath | src/main/java/edu/university/ecs/lab/common/models/enums/EndpointTemplate.java:29-40 | at class level a `path` pair is ignored, and without any `value` pair (or without a class mapping) the prefix is empty |
| EndpointTemplate.VerbRules | src/main/java/edu/university/ecs/lab/common/models/enums/EndpointTemplate.java:43-63 | without a `method` pair the annotation's name decides the verb, so a bare `RequestMapping` gives ALL; an explicit `RequestMethod.POST` gives POST |
| EndpointTemplate.MarkerPath | src/main/java/edu/university/ecs/lab/common/models/enums/EndpointTemplate.java:55-59 | a marker mapping contributes `/` when the prefix is empty and nothing otherwise |
| EndpointTemplate.SlashFixOnlyPrefix | src/main/java/edu/university/ecs/lab/common/models/enums/EndpointTemplate.java:67-72 | because the fix is if/else-if, a prefix without a leading slash gets one and the path after it does not |
| EndpointTemplate.SlashFixPath | src/main/java/edu/university/ecs/lab/common/models/enums/EndpointTemplate.java:70-72 | when the prefix is empty or starts with `/`, a path without a leading slash gets one |
| EndpointTemplate.EmptyGivesRoot | src/main/java/edu/university/ecs/lab/common/models/enums/EndpointTemplate.java:75-76 | an empty prefix and an empty path give the URL `/` |
| EndpointTemplate.PrefixThenGroup | src/main/java/edu/university/ecs/lab/common/models/enums/EndpointTemplate.java:65-91 | a slash-free prefix followed by a bare `{name}` path gives `/prefix{?}` |
| EndpointTemplate.PrefixWithoutSlashExample | src/main/java/edu/university/ecs/lab/common/models/enums/EndpointTemplate.java:25-92 | `@RequestMapping("p")` with `@GetMapping("{g}")` yields the template GET, `GetMapping`, `/p{?}` |
| EndpointTemplate.CleanConcatNoDoubleSlash | src/main/java/edu/university/ecs/lab/common/models/enums/EndpointTemplate.java:78-82 | two clean segments concatenate without a double slash |
| EndpointTemplate.CleanConcatNoBrace | src/main/java/edu/university/ecs/lab/common/models/enums/EndpointTemplate.java:78-91 | two clean segments concatenate without a brace |
| EndpointTemplate.CleanSegmentsConcatenate | src/main/java/edu/university/ecs/lab/common/models/enums/EndpointTemplate.java:65-91 | for a clean prefix and a clean path the final URL is their plain concatenation |
| EndpointTemplate.FinalUrlSimplified | src/main/java/edu/university/ecs/lab/common/models/enums/EndpointTemplate.java:91 | the stored URL is already simplified: simplifying it again changes nothing |
| EndpointTemplate.CollapseIsOnePass | src/main/java/edu/university/ecs/lab/common/models/enums/EndpointTemplate.java:82 | the double-slash collapse is one left-to-right pass, so three slashes become two |
| EndpointTemplate.GetPathFromAnnotation | src/main/java/edu/university/ecs/lab/common/models/enums/EndpointTemplate.java:131-150 | the result extends `url` by a text that simplification leaves unchanged; a marker, or a normal annotation without a `path`/`value` pair, adds nothing; which text is added is stated by `PathFromFirstPair` and `PathFromLiteral` |
| EndpointTemplate.FirstPathPairIsFirst | src/main/java/edu/university/ecs/lab/common/models/enums/EndpointTemplate.java:141-146 | the first `path` or `value` pair is the one used, whatever pairs follow it |
| EndpointTemplate.PathFromLiteral | src/main/java/edu/university/ecs/lab/common/models/enums/EndpointTemplate.java:133-137 | a quoted literal without quotes or braces inside is appended as its bare text |
| EndpointTemplate.PathFromFirstPair | src/main/java/edu/university/ecs/lab/common/models/enums/EndpointTemplate.java:141-146 | a normal annotation adds the simplified text of its first `path` or `value` pair, whatever pairs follow it |
| EndpointTemplate.HttpFromMapping | src/main/java/edu/university/ecs/lab/common/models/enums/EndpointTemplate.java:101-122 | specified by `HttpFromMappingTable`: each verb has exactly its two spellings, everything else ALL |
| EndpointTemplate.Build | src/main/java/edu/university/ecs/lab/common/models/enums/EndpointTemplate.java:25-92 | the template of a mapping; specified by `New` and the prefix, path, verb and slash lemmas of this module |
| RestCallTemplate.ExchangeVerbOrder | src/main/java/edu/university/ecs/lab/common/models/enums/RestCallTemplate.java:75-87 | both directions for each verb: POST exactly when `HttpMethod.POST` occurs; PUT exactly when PUT occurs and POST does not; DELETE exactly when DELETE occurs and neither POST nor PUT does; PATCH exactly when PATCH occurs and none of the three before it does; GET exactly when none of the four occurs |
| RestCallTemplate.HttpFromNameTable | src/main/java/edu/university/ecs/lab/common/models/enums/RestCallTemplate.java:46-67 | NONE exactly for a name off the nine known names (so `options` gets NONE), never ALL; `getForObject`/`get` give GET, `postForObject`/`post` POST, `patchForObject`/`patch` PATCH |
| RestCallTemplate.CleanURL | src/main/java/edu/university/ecs/lab/common/models/enums/RestCallTemplate.java:159-180 | cleaning never lengthens the text left after the schemes are removed; what it keeps is stated by `CleanURLShape`, `CleanURLStripsHost`, `CleanURLKeepsPath` and `CleanURLDropsTrailing` |
| RestCallTemplate.CleanURLStartsAtSlash | src/main/java/edu/university/ecs/lab/common/models/enums/RestCallTemplate.java:164-167 | once a `/` is present after the scheme removal, the cleaned URL is empty or starts at a `/` |
| RestCallTemplate.CleanURLStripsHost | src/main/java/edu/university/ecs/lab/common/models/enums/RestCallTemplate.java:159-180 | `http://host/path` or `https://host/path` is cut to `/path` |
| RestCallTemplate.CleanURLKeepsPath | src/main/java/edu/university/ecs/lab/common/models/enums/RestCallTemplate.java:159-180 | a path that starts at `/` and has no scheme, no trailing `/` and no trailing `"` is kept as it is |
| RestCallTemplate.BackupMatch | src/main/java/edu/university/ecs/lab/common/models/enums/RestCallTemplate.java:130-139 | the regex `".*(/.+?)"` as `find` runs it: the match starts at the first `"` of the text; its `/` is the last `/` after which a closing `"` still follows at least two characters on (greedy `.*`); it ends at the first `"` at least two characters after that `/` (lazy `.+?`); there is no match exactly when the text has no quote-slash-quote shape |
| RestCallTemplate.BackupParseURL | src/main/java/edu/university/ecs/lab/common/models/enums/RestCallTemplate.java:128-151 | without a quote-slash-quote shape the backup parse gives `""`; otherwise it is the matched text from the opening to the closing quote with every `"` removed, each `%s`, `%d`, `%i`, `%f` turned into `{?}`, then cleaned |
| RestCallTemplate.ParseFieldValue | src/main/java/edu/university/ecs/lab/common/models/enums/RestCallTemplate.java:182-193 | the search loop returns the value of the lookup specification |
| RestCallTemplate.FieldValueFirst | src/main/java/edu/university/ecs/lab/common/models/enums/RestCallTemplate.java:183-189 | the first declaration whose variables mention the name and that has an initializer decides the value, its outer quotes removed |
| RestCallTemplate.FieldValueNone | src/main/java/edu/university/ecs/lab/common/models/enums/RestCallTemplate.java:192 | no matching declaration gives `""` |
| RestCallTemplate.ParseURLDivergesIff | src/main/java/edu/university/ecs/lab/common/models/enums/RestCallTemplate.java:95-120 | both directions: the URL parse fails to return exactly when a parenthesised expression is reached, since `parseURL` calls itself on the same node there |
| RestCallTemplate.ParseURLBinary | src/main/java/edu/university/ecs/lab/common/models/enums/RestCallTemplate.java:100-103 | a `+` of two parts without parentheses resolves to the concatenation of the parts |
| RestCallTemplate.ParseURLLeaves | src/main/java/edu/university/ecs/lab/common/models/enums/RestCallTemplate.java:107-116 | a name containing `uri` or `url` gives `""`, any other name `{?}`; a call whose text has no quoted path gives `{?}` |
| RestCallTemplate.PreParseURL | src/main/java/edu/university/ecs/lab/common/models/enums/RestCallTemplate.java:196-210 | a WebClient call without an enclosing call gives `""`; any other call without arguments throws |
| RestCallTemplate.NewTemplate | src/main/java/edu/university/ecs/lab/common/models/enums/RestCallTemplate.java:33-38 | the constructor succeeds exactly when the pre-parse does; the URL is the simplified pre-parsed URL (and stays fixed under simplification) and the verb comes from the call's name |
| RestCallTemplate.DropTrailingShape | src/main/java/edu/university/ecs/lab/common/models/enums/RestCallTemplate.java:169-177 | the trailing step keeps a prefix of its input and drops nothing, one `"`, one `/`, or `/` followed by `"` |
| RestCallTemplate.CleanURLShape | src/main/java/edu/university/ecs/lab/common/models/enums/RestCallTemplate.java:159-180 | after the schemes are removed and the text before the first `/` is cut, the cleaned URL is a prefix of that text that lacks at most a trailing `"`, `/` or `/"` |
| RestCallTemplate.CleanURLDropsTrailing | src/main/java/edu/university/ecs/lab/common/models/enums/RestCallTemplate.java:169-177 | a scheme-free path starting at `/` followed by `"`, `/` or `/"` is cleaned to the path itself |
| RestCallTemplate.BackupParseURLQuotedPath | src/main/java/edu/university/ecs/lab/common/models/enums/RestCallTemplate.java:128-150 | text holding one quoted path starting at `/` (no `%`, no scheme, no trailing `/`) and no other quote gives exactly that path |
| RestCallTemplate.GetHttpMethodForExchange | src/main/java/edu/university/ecs/lab/common/models/enums/RestCallTemplate.java:75-87 | specified by `ExchangeVerbOrder`: the first of POST, PUT, DELETE, PATCH whose `HttpMethod.X` occurs, GET otherwise |
| RestCallTemplate.GetHttpFromName | src/main/java/edu/university/ecs/lab/common/models/enums/RestCallTemplate.java:46-67 | specified by `HttpFromNameTable` and `HttpFromNameOthers`: each of the nine known call names gives its verb, `exchange` the verb its joined arguments name, every other name NONE |
| RestCallTemplate.ParseURL | src/main/java/edu/university/ecs/lab/common/models/enums/RestCallTemplate.java:95-120 | specified by `ParseURLDivergesIff`, `ParseURLBinary` and `ParseURLLeaves`: no result exactly at a parenthesised expression, concatenation across `+`, and the name and call leaves |
| RestCallTemplate.HttpFromNameOthers | src/main/java/edu/university/ecs/lab/common/models/enums/RestCallTemplate.java:58-63 | `put` gives PUT, `delete` DELETE, and `exchange` the exchange scan of its joined arguments |
| RestCallTemplate.FirstArgumentURLSpec | src/main/java/edu/university/ecs/lab/common/models/enums/RestCallTemplate.java:196-207 | no argument throws; an empty first argument gives `""`; the parse never returns exactly when that argument reaches a parenthesised expression; otherwise the result is the cleaned `parseURL` of it |
| RestCallTemplate.FirstArgumentURL | src/main/java/edu/university/ecs/lab/common/models/enums/RestCallTemplate.java:196-207 | specified by `FirstArgumentURLSpec`: the `get(0)` throw, the empty text, divergence, and the cleaned URL |
| SourceToObject.StaticValues | src/main/java/edu/university/ecs/lab/common/utils/SourceToObjectUtils.java:59-63 | the path is the git form of the local path; without a package declaration the package fields of the previous file stay; with one the qualified name starts with the package and a dot; a non-empty service name overrides the previous one |
| SourceToObject.ParseClassRole | src/main/java/edu/university/ecs/lab/common/utils/SourceToObjectUtils.java:332-352 | both directions: UNKNOWN exactly when no annotation is in the role table; otherwise the role of the first annotation, in iteration order, that the table knows |
| SourceToObject.FirstEndpointMapping | src/main/java/edu/university/ecs/lab/common/utils/SourceToObjectUtils.java:174-176 | none exactly when no annotation is an endpoint mapping; otherwise the first annotation that is one |
| SourceToObject.ConvertValidEndpoints | src/main/java/edu/university/ecs/lab/common/utils/SourceToObjectUtils.java:173-186 | without a mapping annotation the method is returned as it is; otherwise it becomes an Endpoint with the same method fields and the URL and verb of the template built from the first mapping |
| SourceToObject.ParseAnnotations | src/main/java/edu/university/ecs/lab/common/utils/SourceToObjectUtils.java:316-324 | the set holds an annotation for every expression, each under the file's qualified class name, without duplicates |
| SourceToObject.ParseParameter | src/main/java/edu/university/ecs/lab/common/utils/SourceToObjectUtils.java:145 | the parameter keeps the declaration's name and type, the qualified class name and the parsed annotations |
| SourceToObject.ParseMethod | src/main/java/edu/university/ecs/lab/common/utils/SourceToObjectUtils.java:143-157 | one loop iteration gives the Method built from the declaration and the context, and it is an Endpoint exactly when the declaration carries a mapping annotation |
| SourceToObject.ParseMethods | src/main/java/edu/university/ecs/lab/common/utils/SourceToObjectUtils.java:138-163 | the loop returns the set of the specification |
| SourceToObject.ParsedMethodsSpec | src/main/java/edu/university/ecs/lab/common/utils/SourceToObjectUtils.java:138-163 | both directions: a method is in the set exactly when some declaration parses to it; each carries the file's class, service and qualified name; no duplicates |
| SourceToObject.FieldsOfSpec | src/main/java/edu/university/ecs/lab/common/utils/SourceToObjectUtils.java:250-262 | every declarator of every declaration gives a field under the file's qualified class name, and no field has another qualified name |
| SourceToObject.ParseFields | src/main/java/edu/university/ecs/lab/common/utils/SourceToObjectUtils.java:250-262 | the nested loop returns the field set of the specification |
| SourceToObject.AddDeclarators | src/main/java/edu/university/ecs/lab/common/utils/SourceToObjectUtils.java:255-257 | the inner loop adds one field per declarator of one declaration |
| SourceToObject.GetCallingObjectName | src/main/java/edu/university/ecs/lab/common/utils/SourceToObjectUtils.java:270-282 | the scope's name when the scope is a plain name, and `""` otherwise, never null |
| SourceToObject.GetCallingObjectType | src/main/java/edu/university/ecs/lab/common/utils/SourceToObjectUtils.java:284-307 | `""` without a scope; a dot-free resolved name is itself; an unsolved symbol gives its name or `""`; an unresolvable one `""`; the dotted cases are stated by `ResolvedLastSegment` and `ResolvedTrailingDot` |
| SourceToObject.ConvertValidRestCalls | src/main/java/edu/university/ecs/lab/common/utils/SourceToObjectUtils.java:230-242 | a call that is not a REST candidate is kept; a candidate's outcome is the template's; the call becomes a RestCall exactly when it is a candidate with a non-empty URL, carrying the template's URL and verb; every other field is kept |
| SourceToObject.CallStep | src/main/java/edu/university/ecs/lab/common/utils/SourceToObjectUtils.java:201-216 | one call of the inner loop: a successful call joins the accumulated list, and a failing one is the outcome of the whole loop |
| SourceToObject.ParseMethodCalls | src/main/java/edu/university/ecs/lab/common/utils/SourceToObjectUtils.java:196-221 | the nested loop returns the outcome of the specification |
| SourceToObject.DeclCalls | src/main/java/edu/university/ecs/lab/common/utils/SourceToObjectUtils.java:201-217 | the inner loop over one declaration's calls appends their MethodCalls to the accumulated list, or stops with the first failure |
| SourceToObject.CallOfNames | src/main/java/edu/university/ecs/lab/common/utils/SourceToObjectUtils.java:210-211 | a successful call keeps the call's name and the name of the declaration it is in |
| SourceToObject.AllCallsSpec | src/main/java/edu/university/ecs/lab/common/utils/SourceToObjectUtils.java:196-221 | on success there is exactly one MethodCall per call expression; without REST candidates the parse succeeds and yields only plain MethodCalls |
| SourceToObject.QueryParamsJoin | src/main/java/edu/university/ecs/lab/common/utils/SourceToObjectUtils.java:390-410 | the query string is `""` without RequestParam annotations, and otherwise `?` followed by the `name={?}` fragments joined by `&` |
| SourceToObject.BuildQueryParams | src/main/java/edu/university/ecs/lab/common/utils/SourceToObjectUtils.java:390-410 | the StringBuilder loop returns the query string of the specification |
| SourceToObject.FeignMethod | src/main/java/edu/university/ecs/lab/common/utils/SourceToObjectUtils.java:386-388 | a Feign endpoint becomes a plain Method with the same fields under the file's qualified name; any other method is kept |
| SourceToObject.FeignCall | src/main/java/edu/university/ecs/lab/common/utils/SourceToObjectUtils.java:412 | the RestCall is an `exchange` on `restCallTemplate` of type `RestCallTemplate`, called from the endpoint, at the endpoint URL plus the query string, with the endpoint's verb, service and class |
| SourceToObject.FeignRewriteSpec | src/main/java/edu/university/ecs/lab/common/utils/SourceToObjectUtils.java:385-416 | the rewrite leaves no Endpoint among the methods, and the calls are exactly one `exchange` RestCall per endpoint |
| SourceToObject.ConvertFeignMethod | src/main/java/edu/university/ecs/lab/common/utils/SourceToObjectUtils.java:386-415 | the loop body returns the method to keep and, for an endpoint, the RestCall standing for it |
| SourceToObject.RewriteFeignMethods | src/main/java/edu/university/ecs/lab/common/utils/SourceToObjectUtils.java:385-416 | the loop returns the method set and the call list of the specification |
| SourceToObject.ImplementedTypes | src/main/java/edu/university/ecs/lab/common/utils/SourceToObjectUtils.java:429 | the implemented types exist exactly when the file has a class declaration, and are its types without duplicates |
| SourceToObject.HandleFeignClient | src/main/java/edu/university/ecs/lab/common/utils/SourceToObjectUtils.java:374-430 | the method returns the Feign class of the specification |
| SourceToObject.FeignClientClassSpec | src/main/java/edu/university/ecs/lab/common/utils/SourceToObjectUtils.java:374-430 | the class exists exactly when the file has a class declaration; it is a FEIGN_CLIENT without endpoints, with plain methods only and one `exchange` RestCall per parsed endpoint |
| SourceToObject.ClassResourcePrefix | src/main/java/edu/university/ecs/lab/common/utils/SourceToObjectUtils.java:479-496 | the prefix loop over the class annotations returns the prefix of the specification, including the throw when a non-single-member RepositoryRestResource meets a single-member mapping |
| SourceToObject.ScanResourcePairs | src/main/java/edu/university/ecs/lab/common/utils/SourceToObjectUtils.java:505-517 | the scan of the mapping pairs takes the last `path` value, records whether one was found, and clears the exported flag on `exported = false` |
| SourceToObject.ResourceEndpoints | src/main/java/edu/university/ecs/lab/common/utils/SourceToObjectUtils.java:498-532 | the endpoint loop returns the final prefix and the endpoint set of the specification |
| SourceToObject.ResourceFoldPlain | src/main/java/edu/university/ecs/lab/common/utils/SourceToObjectUtils.java:499-531 | without a normal class mapping every method becomes a GET endpoint at `prefix/search/name` |
| SourceToObject.ResourceFoldSpec | src/main/java/edu/university/ecs/lab/common/utils/SourceToObjectUtils.java:499-531 | every endpoint is a GET endpoint standing for one of the methods; with an `exported = false` pair only methods without annotations survive |
| SourceToObject.RestResourceClass | src/main/java/edu/university/ecs/lab/common/utils/SourceToObjectUtils.java:536-545 | a built class carries the file's header and the role REP_REST_RSC |
| SourceToObject.HandleRepositoryRestResource | src/main/java/edu/university/ecs/lab/common/utils/SourceToObjectUtils.java:468-546 | the method returns the class of the specification |
| SourceToObject.RestResourceClassSpec | src/main/java/edu/university/ecs/lab/common/utils/SourceToObjectUtils.java:468-546 | a REST resource class makes no calls and every method it keeps is a GET endpoint; without a mapping it exists exactly when the file has a class declaration |
| SourceToObject.ResourcePrefixPlain | src/main/java/edu/university/ecs/lab/common/utils/SourceToObjectUtils.java:481-496 | without a mapping the default prefix is kept |
| SourceToObject.RequestMappingOf | src/main/java/edu/university/ecs/lab/common/utils/SourceToObjectUtils.java:98 | the first class annotation named `RequestMapping`, or none when there is none |
| SourceToObject.PlainClass | src/main/java/edu/university/ecs/lab/common/utils/SourceToObjectUtils.java:114-123 | the class exists exactly when the calls parse and the file has a class declaration; it carries the header, the given role and the parsed calls |
| SourceToObject.ParseClass | src/main/java/edu/university/ecs/lab/common/utils/SourceToObjectUtils.java:84-129 | the dispatch returns the outcome of the specification |
| SourceToObject.HandlePlainClass | src/main/java/edu/university/ecs/lab/common/utils/SourceToObjectUtils.java:114-123 | the `new JClass` branch returns the class of the specification |
| SourceToObject.ClassOfSpec | src/main/java/edu/university/ecs/lab/common/utils/SourceToObjectUtils.java:84-129 | a configuration path gives no class, no role annotation gives no class, and a built class carries the header and the role of its first role annotation |
| SourceToObject.ConfigurationReader | src/main/java/edu/university/ecs/lab/common/utils/SourceToObjectUtils.java:432-444 | both directions for each reader: `.yml` files go to YAML, `DockerFile` to Docker, `pom.xml` to POM, `build.gradle` to Gradle, and any other name to null |
| SourceToObject.ResolvedLastSegment | src/main/java/edu/university/ecs/lab/common/utils/SourceToObjectUtils.java:295-300 | a resolved name `pre.x` with a non-empty dot-free `x` gives `x`, the last part of `split("\\.")` |
| SourceToObject.ResolvedTrailingDot | src/main/java/edu/university/ecs/lab/common/utils/SourceToObjectUtils.java:295-300 | a trailing `.` changes nothing, as `split` drops trailing empty parts; with the dot-free case and `ResolvedLastSegment` this fixes the result for every resolved name |
| SourceToObject.ParsedMethods | src/main/java/edu/university/ecs/lab/common/utils/SourceToObjectUtils.java:138-163 | the method set `parseMethods` builds; specified by `ParsedMethodsSpec` (membership, stamps, no duplicates) and computed by the loop `ParseMethods` |
| SourceToObject.ParsedFields | src/main/java/edu/university/ecs/lab/common/utils/SourceToObjectUtils.java:250-262 | the field set `parseFields` builds; specified by `FieldsOfSpec` and computed by the nested loop `ParseFields` |
| SourceToObject.ClassOf | src/main/java/edu/university/ecs/lab/common/utils/SourceToObjectUtils.java:84-129 | the class a compilation unit gives; specified by `ClassOfSpec` and computed by `ParseClass` |
| MicroserviceModel.BucketOf | src/main/java/edu/university/ecs/lab/common/models/ir/Microservice.java:121-140 | an unknown role has no bucket, and exactly REPOSITORY and REP_REST_RSC share the repositories bucket |
| MicroserviceModel.NewService | src/main/java/edu/university/ecs/lab/common/models/ir/Microservice.java:69-79 | a new service has the given name and path, all five buckets and the files empty, and keeps the invariant |
| MicroserviceModel.AddJClass | src/main/java/edu/university/ecs/lab/common/models/ir/Microservice.java:118-141 | an unknown role changes nothing; otherwise the class, re-stamped with the service's name, is added as to a set to the bucket of its role and every other part of the service is kept |
| MicroserviceModel.GetClasses | src/main/java/edu/university/ecs/lab/common/models/ir/Microservice.java:254-263 | the classes are exactly the members of the five buckets, without duplicates |
| MicroserviceModel.FindByPath | src/main/java/edu/university/ecs/lab/common/models/ir/Microservice.java:153-158 | none exactly when no class has the path; otherwise a class of the list with that path |
| MicroserviceModel.FindConfigByPath | src/main/java/edu/university/ecs/lab/common/models/ir/Microservice.java:197-202 | none exactly when no configuration file has the path; otherwise a file of the list with that path |
| MicroserviceModel.RemoveConfig | src/main/java/edu/university/ecs/lab/common/models/ir/Microservice.java:209 | a file stays exactly when it is not equal to the removed one |
| MicroserviceModel.AddFile | src/main/java/edu/university/ecs/lab/common/models/ir/MicroserviceSystem.java:98 | adding a configuration file adds it as to a set of configuration files and leaves the buckets, the name and the path alone |
| MicroserviceModel.AddAll | src/main/java/edu/university/ecs/lab/common/models/ir/Microservice.java:256-260 | the union keeps every file of the pool, has (up to `equals`) every added file, and holds nothing else |
| MicroserviceModel.GetAllFilesSpec | src/main/java/edu/university/ecs/lab/common/models/ir/Microservice.java:271-276 | every file is a class of the service or one of its configuration files; every class is among them, and every configuration file up to `equals` |
| MicroserviceModel.GetEndpoints | src/main/java/edu/university/ecs/lab/common/models/ir/Microservice.java:293-296 | the endpoints are exactly the endpoints of the controllers, without duplicates |
| MicroserviceModel.GetRestCalls | src/main/java/edu/university/ecs/lab/common/models/ir/Microservice.java:283-286 | the REST calls are exactly the RestCalls among the calls of the service's classes |
| MicroserviceModel.AddJClassValid | src/main/java/edu/university/ecs/lab/common/models/ir/Microservice.java:118-141 | adding a class keeps the invariant: every bucket is a set of classes of its roles and the configuration files form a set |
| MicroserviceModel.AddJClassBuckets | src/main/java/edu/university/ecs/lab/common/models/ir/Microservice.java:118-141 | an unknown role changes nothing; otherwise the re-stamped class is among the classes, in the bucket of its role and in no other |
| MicroserviceModel.AddJClassClasses | src/main/java/edu/university/ecs/lab/common/models/ir/Microservice.java:118-141 | both directions: the classes afterwards are the classes before plus the re-stamped class when its role has a bucket |
| MicroserviceModel.AddFileClasses | src/main/java/edu/university/ecs/lab/common/models/ir/MicroserviceSystem.java:98 | adding a configuration file leaves the classes alone |
| MicroserviceModel.AddFileValid | src/main/java/edu/university/ecs/lab/common/models/ir/MicroserviceSystem.java:98 | adding a configuration file keeps the invariant |
| MicroserviceModel.RemoveJClassValid | src/main/java/edu/university/ecs/lab/common/models/ir/Microservice.java:149-183 | removing a class keeps the invariant |
| MicroserviceModel.RemoveJClassAbsent | src/main/java/edu/university/ecs/lab/common/models/ir/Microservice.java:160-163 | removing a path no class has changes nothing |
| MicroserviceModel.RemoveJClassPresent | src/main/java/edu/university/ecs/lab/common/models/ir/Microservice.java:149-183 | the first class with the path leaves the bucket of its role, and the other buckets and the files stay as they were |
| MicroserviceModel.AddThenRemoveJClass | src/main/java/edu/university/ecs/lab/common/models/ir/Microservice.java:118-183 | adding a class of known role whose path no class of the service has, then removing that path, gives the service back |
| MicroserviceModel.RemoveProjectFileConfig | src/main/java/edu/university/ecs/lab/common/models/ir/Microservice.java:193-210 | for a configuration path the buckets stay; a missing file changes nothing; otherwise the files lose exactly those equal to the first file with that path |
| MicroserviceModel.RemoveProjectFileClass | src/main/java/edu/university/ecs/lab/common/models/ir/Microservice.java:211-246 | for any other path the removal is `removeJClass` and the files stay |
| MicroserviceModel.EndpointsFromControllersOnly | src/main/java/edu/university/ecs/lab/common/models/ir/Microservice.java:293-296 | services with the same controllers have the same endpoints: no other bucket, repository REST resources included, contributes |
| Microservices.Microservice.constructor | src/main/java/edu/university/ecs/lab/common/models/ir/Microservice.java:69-79 | the new object holds the new service of the model |
| Microservices.Microservice.AddJClass | src/main/java/edu/university/ecs/lab/common/models/ir/Microservice.java:118-141 | the new state is the model's `addJClass` of the old state |
| Microservices.Microservice.AddFile | src/main/java/edu/university/ecs/lab/common/models/ir/MicroserviceSystem.java:98 | the new state is the old state with the configuration file added |
| Microservices.Microservice.RemoveFromBucket | src/main/java/edu/university/ecs/lab/common/models/ir/Microservice.java:165-182 | the class leaves the bucket of its role, nothing else changes; an unknown role changes nothing |
| Microservices.Microservice.FindClass | src/main/java/edu/university/ecs/lab/common/models/ir/Microservice.java:150-158 | the search loop returns the first class of `getClasses()` with the path, or none |
| Microservices.Microservice.RemoveJClass | src/main/java/edu/university/ecs/lab/common/models/ir/Microservice.java:149-183 | the new state is the model's `removeJClass` of the old state |
| Microservices.Microservice.RemoveProjectFile | src/main/java/edu/university/ecs/lab/common/models/ir/Microservice.java:191-247 | the new state is the model's `removeProjectFile` of the old state |
| MicroserviceModel.RemoveJClass | src/main/java/edu/university/ecs/lab/common/models/ir/Microservice.java:149-183 | specified by `RemoveJClassAbsent`, `RemoveJClassPresent`, `RemoveJClassValid` and `AddThenRemoveJClass` |
| MicroserviceModel.RemoveProjectFile | src/main/java/edu/university/ecs/lab/common/models/ir/Microservice.java:191-247 | specified by `RemoveProjectFileConfig` and `RemoveProjectFileClass`, one per branch |
| MicroserviceModel.GetAllFiles | src/main/java/edu/university/ecs/lab/common/models/ir/Microservice.java:271-276 | specified by `GetAllFilesSpec`: the classes and the configuration files, both directions |
| SystemModel.FindMicroserviceByPath | src/main/java/edu/university/ecs/lab/common/models/ir/MicroserviceSystem.java:61-63 | none exactly when no service's path is a prefix of the path; otherwise the first service whose path is one |
| SystemModel.Orphaned | src/main/java/edu/university/ecs/lab/common/models/ir/MicroserviceSystem.java:75 | every class, re-stamped with `""`, is among the orphans, and nothing else is |
| SystemModel.OrphanizeSpec | src/main/java/edu/university/ecs/lab/common/models/ir/MicroserviceSystem.java:73-77 | the pool keeps every orphan and gains every class of the service re-stamped with `""`, and nothing else, in particular no configuration file |
| SystemModel.AdoptAllSnoc | src/main/java/edu/university/ecs/lab/common/models/ir/MicroserviceSystem.java:89-102 | the loop of `adopt` over one more orphan is one more turn |
| SystemModel.AdoptStepKeeps | src/main/java/edu/university/ecs/lab/common/models/ir/MicroserviceSystem.java:89-102 | a turn keeps the service's name, its path and its invariant |
| SystemModel.AdoptAllKeeps | src/main/java/edu/university/ecs/lab/common/models/ir/MicroserviceSystem.java:86-106 | `adopt` keeps the service's name, its path and its invariant |
| SystemModel.AdoptAllOrphans | src/main/java/edu/university/ecs/lab/common/models/ir/MicroserviceSystem.java:89-104 | both directions: an orphan stays exactly when it is not a class whose path contains the service's path, so configuration files always stay |
| SystemModel.AdoptAllClasses | src/main/java/edu/university/ecs/lab/common/models/ir/MicroserviceSystem.java:91-96 | both directions: the classes afterwards are those before plus every taken class of known role, re-stamped with the service's name |
| SystemModel.AdoptAllAddsFiles | src/main/java/edu/university/ecs/lab/common/models/ir/MicroserviceSystem.java:97-99 | every configuration orphan whose path contains the service's path is afterwards among the service's files, up to `equals` |
| SystemModel.AdoptAllOnlyFiles | src/main/java/edu/university/ecs/lab/common/models/ir/MicroserviceSystem.java:97-99 | the only files the service gains are configuration orphans whose path contains its path |
| SystemModel.AdoptAllUntouched | src/main/java/edu/university/ecs/lab/common/models/ir/MicroserviceSystem.java:89-102 | orphans whose path does not contain the service's path leave `adopt` with nothing to do |
| SystemModel.AdoptStepAsWritten | src/main/java/edu/university/ecs/lab/common/models/ir/MicroserviceSystem.java:92-96 | the turn as the code runs it builds the same service as the intended turn, and differs from it only for a taken class |
| SystemModel.StampChangesClass | src/main/java/edu/university/ecs/lab/common/models/ir/MicroserviceSystem.java:94 | a class with a method stamped with another service name is changed by the re-stamp |
| SystemModel.AdoptMissKeepsClass | src/main/java/edu/university/ecs/lab/common/models/ir/MicroserviceSystem.java:94-96 | a taken class whose methods carried another name leaves the intended pool but stays, re-stamped, in the pool as written |
| SystemModel.AllClasses | src/main/java/edu/university/ecs/lab/common/models/ir/MicroserviceSystem.java:116 | a class is listed exactly when some service has it |
| SystemModel.AllFiles | src/main/java/edu/university/ecs/lab/common/models/ir/MicroserviceSystem.java:132 | a file is listed exactly when it is among some service's files |
| SystemModel.FindFileByPath | src/main/java/edu/university/ecs/lab/common/models/ir/MicroserviceSystem.java:132-134 | none exactly when no file has the path; otherwise a listed file with that path |
| SystemModel.FindClass | src/main/java/edu/university/ecs/lab/common/models/ir/MicroserviceSystem.java:114-122 | the result has the path; none exactly when no class of a service and no class orphan has it; a class orphan is found only when no service has a class at that path |
| SystemModel.FindFile | src/main/java/edu/university/ecs/lab/common/models/ir/MicroserviceSystem.java:130-138 | the result has the path; none exactly when no file of a service and no orphan has it; an orphan is found only when no service has a file at that path |
| SystemModel.MicroserviceFromFile | src/main/java/edu/university/ecs/lab/common/models/ir/MicroserviceSystem.java:148-158 | the name of the first service with a configuration file at the path, and `""` when there is none |
| SystemModel.AdoptEachSnoc | src/main/java/edu/university/ecs/lab/common/models/ir/MicroserviceSystem.java:162-164 | the adopt loop over one more service is one more `adopt` on the pool the previous ones left |
| SystemModel.AdoptEachKeeps | src/main/java/edu/university/ecs/lab/common/models/ir/MicroserviceSystem.java:162-164 | every service keeps its name, its path and its invariant, and the pool only loses orphans |
| SystemModel.AdoptEachValid | src/main/java/edu/university/ecs/lab/common/models/ir/MicroserviceSystem.java:162-164 | the adopt loop keeps every service's invariant |
| SystemModel.OrphanizeAndAdoptValid | src/main/java/edu/university/ecs/lab/common/models/ir/MicroserviceSystem.java:160-165 | `orphanizeAndAdopt` keeps the invariant of every service of the system |
| SystemModel.OrphanizeAndAdoptOrphans | src/main/java/edu/university/ecs/lab/common/models/ir/MicroserviceSystem.java:160-165 | what is left in the pool was an orphan or a class of the orphanized service re-stamped with `""` |
| SystemModel.OrphanizeAndAdoptSpec | src/main/java/edu/university/ecs/lab/common/models/ir/MicroserviceSystem.java:160-165 | the number of services and their names and paths are kept, the invariant is kept, and the pool holds only old orphans and re-stamped classes of the orphanized service |
| Systems.MicroserviceSystem.constructor | src/main/java/edu/university/ecs/lab/common/models/ir/MicroserviceSystem.java:17-38 | the new system holds the given name, commit, services and orphans, and distinct service objects |
| Systems.MicroserviceSystem.FindMicroserviceByPath | src/main/java/edu/university/ecs/lab/common/models/ir/MicroserviceSystem.java:61-63 | the object returned is the service the specification finds, and null exactly when it finds none |
| Systems.MicroserviceSystem.Orphanize | src/main/java/edu/university/ecs/lab/common/models/ir/MicroserviceSystem.java:73-77 | the pool becomes the specification's orphanized pool; the name and the commit are unchanged, and the services are unchanged as values (the in-place re-stamp of the shared class objects is not modelled; see Left out) |
| Systems.MicroserviceSystem.Adopt | src/main/java/edu/university/ecs/lab/common/models/ir/MicroserviceSystem.java:86-106 | the service and the pool become the result of the specification's `adopt`; nothing else of the system changes |
| Systems.MicroserviceSystem.AdoptOrphan | src/main/java/edu/university/ecs/lab/common/models/ir/MicroserviceSystem.java:91-100 | one turn of the loop updates the service and the pool as the specification's turn does |
| Systems.MicroserviceSystem.GetMicroserviceFromFile | src/main/java/edu/university/ecs/lab/common/models/ir/MicroserviceSystem.java:148-158 | the nested search returns the specification's service name |
| Systems.MicroserviceSystem.HasConfigAt | src/main/java/edu/university/ecs/lab/common/models/ir/MicroserviceSystem.java:150-154 | the inner loop answers whether some configuration file has the path |
| Systems.MicroserviceSystem.OrphanizeAndAdopt | src/main/java/edu/university/ecs/lab/common/models/ir/MicroserviceSystem.java:160-165 | the new state of the system is the specification's `orphanizeAndAdopt` of the old state |
| Systems.MicroserviceSystem.AdoptEach | src/main/java/edu/university/ecs/lab/common/models/ir/MicroserviceSystem.java:162-164 | the loop leaves every service and the pool as the specification's adopt loop does |
| SystemModel.Orphanize | src/main/java/edu/university/ecs/lab/common/models/ir/MicroserviceSystem.java:73-77 | specified by `OrphanizeSpec`: the pool keeps every orphan and gains exactly the service's classes re-stamped with `""` |
| SystemModel.AdoptStep | src/main/java/edu/university/ecs/lab/common/models/ir/MicroserviceSystem.java:89-102 | specified by `AdoptStepKeeps` and `AdoptAllSnoc`: one turn of the loop of `adopt` |
| SystemModel.AdoptAll | src/main/java/edu/university/ecs/lab/common/models/ir/MicroserviceSystem.java:86-106 | specified by `AdoptAllKeeps`, `AdoptAllOrphans`, `AdoptAllClasses`, `AdoptAllAddsFiles`, `AdoptAllOnlyFiles` and `AdoptAllUntouched` |
| SystemModel.Adopt | src/main/java/edu/university/ecs/lab/common/models/ir/MicroserviceSystem.java:86-106 | the loop of `adopt` over the pool as it was on entry; specified by the `AdoptAll` lemmas |
| SystemModel.OrphanizeAndAdopt | src/main/java/edu/university/ecs/lab/common/models/ir/MicroserviceSystem.java:160-165 | specified by `OrphanizeAndAdoptValid`, `OrphanizeAndAdoptOrphans` and `OrphanizeAndAdoptSpec` |
| Serialization.GetAsString | src/main/java/edu/university/ecs/lab/common/models/serialization/MethodDeserializer.java:29 | a string reads as itself; an object or null throws UnsupportedOperationException; an array of other than one element throws IllegalStateException; reading never diverges |
| Serialization.StringMember | src/main/java/edu/university/ecs/lab/common/models/serialization/MethodDeserializer.java:29-30 | an absent member throws NullPointerException; a string member reads as its value |
| Serialization.ArrayMember | src/main/java/edu/university/ecs/lab/common/models/serialization/MethodDeserializer.java:33 | an absent member throws NullPointerException; an array member reads as its items; any other member throws IllegalStateException |
| Serialization.AsObject | src/main/java/edu/university/ecs/lab/common/models/serialization/MethodDeserializer.java:19 | both directions: the element reads as an object exactly when it is one, as its members; otherwise IllegalStateException |
| Serialization.ParseHttpMethod | src/main/java/edu/university/ecs/lab/common/models/serialization/MethodDeserializer.java:57 | a verb read by name has that name; any other name throws IllegalArgumentException |
| Serialization.HttpMethodNameRoundTrip | src/main/java/edu/university/ecs/lab/common/models/serialization/MethodDeserializer.java:57 | every verb's name reads back as that verb |
| Serialization.ToJsonArray | src/main/java/edu/university/ecs/lab/common/models/serialization/JsonSerializable.java:26-32 | the array holds each element's JSON, in iteration order |
| Serialization.CollectSetRoundTrip | src/main/java/edu/university/ecs/lab/common/models/serialization/MethodDeserializer.java:32-36 | a list whose elements each round-trip, written out and collected into a set, is its distinct elements in order |
| Serialization.CollectListRoundTrip | src/main/java/edu/university/ecs/lab/common/models/ir/JClass.java:98 | a list whose elements each round-trip, written out and read back, is the same list |
| Serialization.GsonString | src/main/java/edu/university/ecs/lab/common/models/serialization/ProjectFileDeserializer.java:16 | Gson reads a string field from a string, and fails with a syntax error on an array or an object |
| Serialization.GsonStringMap | src/main/java/edu/university/ecs/lab/common/models/ir/Annotation.java:56 | an object of string members reads as the map of those strings |
| Serialization.AnnotationToJson | src/main/java/edu/university/ecs/lab/common/models/ir/Annotation.java:50-60 | the object has exactly the members `name`, `packageAndClassName` and `attributes` |
| Serialization.AnnotationRoundTrip | src/main/java/edu/university/ecs/lab/common/models/ir/Annotation.java:50-60 | an annotation written out and read back is the same annotation |
| Serialization.AnnotationsRoundTrip | src/main/java/edu/university/ecs/lab/common/models/ir/Annotation.java:50-60 | a duplicate-free set of annotations written out and read back is the same set |
| Serialization.ParameterRoundTrip | src/main/java/edu/university/ecs/lab/common/models/ir/Parameter.java:42-51 | a parameter with a duplicate-free annotation set round-trips |
| Serialization.FieldRoundTrip | src/main/java/edu/university/ecs/lab/common/models/ir/Field.java:30-38 | a field written out and read back is the same field |
| Serialization.MethodToJson | src/main/java/edu/university/ecs/lab/common/models/ir/Method.java:69-81 | the JSON is an object, and it has a `url` member exactly when the method is an Endpoint (Endpoint.java:50-57) |
| Serialization.JsonToMethod | src/main/java/edu/university/ecs/lab/common/models/serialization/MethodDeserializer.java:27-49 | what `jsonToMethod` builds is a plain Method |
| Serialization.JsonToEndpoint | src/main/java/edu/university/ecs/lab/common/models/serialization/MethodDeserializer.java:51-58 | what `jsonToEndpoint` builds is an Endpoint |
| Serialization.DeserializeMethod | src/main/java/edu/university/ecs/lab/common/models/serialization/MethodDeserializer.java:18-25 | a non-object throws IllegalStateException; a result is an Endpoint exactly when the object has a `url` member |
| Serialization.JsonToMethodReads | src/main/java/edu/university/ecs/lab/common/models/serialization/MethodDeserializer.java:27-49 | an object whose seven members read as a method's fields gives back that plain method |
| Serialization.PlainMethodRoundTrip | src/main/java/edu/university/ecs/lab/common/models/serialization/MethodDeserializer.java:27-49 | the plain part of a method with duplicate-free sets, written out, is read back by `jsonToMethod` |
| Serialization.MethodRoundTrip | src/main/java/edu/university/ecs/lab/common/models/serialization/MethodDeserializer.java:18-58 | deserializing what `toJsonObject` wrote gives back the same variant with the same fields |
| Serialization.MethodsRoundTrip | src/main/java/edu/university/ecs/lab/common/models/serialization/MethodDeserializer.java:18-58 | a duplicate-free set of methods round-trips as a set |
| Serialization.MethodCallToJson | src/main/java/edu/university/ecs/lab/common/models/ir/MethodCall.java:64-77 | the JSON is an object, and it has a `url` member exactly when the call is a RestCall (RestCall.java:52-59) |
| Serialization.JsonToMethodCall | src/main/java/edu/university/ecs/lab/common/models/serialization/MethodCallDeserializer.java:26-39 | what `jsonToMethodCall` builds is a plain MethodCall |
| Serialization.JsonToRestCall | src/main/java/edu/university/ecs/lab/common/models/serialization/MethodCallDeserializer.java:41-50 | what `jsonToRestCall` builds is a RestCall |
| Serialization.DeserializeMethodCall | src/main/java/edu/university/ecs/lab/common/models/serialization/MethodCallDeserializer.java:17-24 | a non-object throws IllegalStateException; a result is a RestCall exactly when the object has a `url` member |
| Serialization.MethodCallRoundTrip | src/main/java/edu/university/ecs/lab/common/models/serialization/MethodCallDeserializer.java:17-50 | deserializing what `toJsonObject` wrote gives back the same variant with all its fields |
| Serialization.MethodCallsRoundTrip | src/main/java/edu/university/ecs/lab/common/models/ir/JClass.java:98 | a list of calls round-trips as the same list |
| Serialization.JClassToJson | src/main/java/edu/university/ecs/lab/common/models/ir/JClass.java:89-102 | the object has exactly the ProjectFile members and the class's own seven |
| Serialization.ConfigFileToJson | src/main/java/edu/university/ecs/lab/common/models/ir/ConfigFile.java:23-27 | the object has exactly `name`, `path`, `fileType` and `data`, and `fileType` is the file type's name |
| Serialization.ProjectFileToJson | src/main/java/edu/university/ecs/lab/common/models/ir/ProjectFile.java:21-27 | the object has a `fileType` member: `JCLASS` for a class and the file type's name for a configuration file |
| Serialization.DeserializeProjectFile | src/main/java/edu/university/ecs/lab/common/models/serialization/ProjectFileDeserializer.java:11-24 | a non-object throws; a missing `fileType` is a NullPointerException; a type other than JCLASS, POM and CONFIG is a JsonParseException; JCLASS gives a class and POM or CONFIG a configuration file |
| Serialization.DecodeJClassReads | src/main/java/edu/university/ecs/lab/common/models/serialization/ProjectFileDeserializer.java:16 | the reflective decoding reads the class's name, path, package and role before its collections |
| Serialization.JClassRoundTrip | src/main/java/edu/university/ecs/lab/common/models/ir/JClass.java:89-102 | a class with duplicate-free sets, written out and decoded, is the same class |
| Serialization.ProjectFileRoundTrip | src/main/java/edu/university/ecs/lab/common/models/serialization/ProjectFileDeserializer.java:11-24 | a project file (a class with duplicate-free sets, or a CONFIG file) written out and read back is the same file |
| Serialization.ClassFileRoundTrip | src/main/java/edu/university/ecs/lab/common/models/serialization/ProjectFileDeserializer.java:15-16 | a class written out is read back as that class |
| Serialization.ConfigEntryRoundTrip | src/main/java/edu/university/ecs/lab/common/models/serialization/ProjectFileDeserializer.java:19-20 | a CONFIG file written out is read back as that file |
| Serialization.NewConfigFileRoundTrip | src/main/java/edu/university/ecs/lab/common/models/ir/ConfigFile.java:15-20 | every file the ConfigFile constructor builds round-trips, whatever type was passed, because the constructor stamps CONFIG |
| Serialization.DecodeJClass | src/main/java/edu/university/ecs/lab/common/models/serialization/ProjectFileDeserializer.java:16 | specified by `JClassRoundTrip` and `DecodeJClassReads`: a written class reads back as itself |
| Serialization.CollectSet | src/main/java/edu/university/ecs/lab/common/models/serialization/MethodDeserializer.java:32-36 | Gson reading a JSON array into a set; specified by `CollectSetRoundTrip`: a written list of distinct elements reads back as itself |
| Serialization.CollectList | src/main/java/edu/university/ecs/lab/common/models/ir/JClass.java:98 | Gson reading a JSON array into a list; specified by `CollectListRoundTrip`: a written list reads back as itself |
| Serialization.DecodeAnnotation | src/main/java/edu/university/ecs/lab/common/models/ir/Annotation.java:50-60 | Gson reading an annotation; specified by `AnnotationRoundTrip` |
| Serialization.DecodeField | src/main/java/edu/university/ecs/lab/common/models/ir/Field.java:30-38 | Gson reading a field; specified by `FieldRoundTrip` |
| Serialization.ConfigFileDecodes | src/main/java/edu/university/ecs/lab/common/models/serialization/ProjectFileDeserializer.java:17-20 | a written configuration file of any type reads back as itself |
| Serialization.DecodeConfigFile | src/main/java/edu/university/ecs/lab/common/models/serialization/ProjectFileDeserializer.java:17-20 | Gson reading a configuration file; specified by `ConfigFileDecodes`, `ConfigEntryRoundTrip` and `NewConfigFileRoundTrip` |
| Deltas.PayloadAs | src/main/java/edu/university/ecs/lab/delta/models/Delta.java:55-96 | an empty payload is no file; a payload read as a file has the expected `fileType` and decodes to that file; a non-empty payload without `fileType` throws NullPointerException |
| Deltas.PayloadAsDecoded | src/main/java/edu/university/ecs/lab/delta/models/Delta.java:60-61 | a payload stamped with the expected type that decodes is read as the decoded value |
| Deltas.EmptyPayloadIsNothing | src/main/java/edu/university/ecs/lab/delta/models/Delta.java:56-58 | an empty payload is neither a class nor a configuration file |
| Deltas.NeverBoth | src/main/java/edu/university/ecs/lab/delta/models/Delta.java:60-63 | a payload is never both a class and a configuration file |
| Deltas.SyntaxFailureIsNone | src/main/java/edu/university/ecs/lab/delta/models/Delta.java:65-70 | a JCLASS payload whose decoding fails with a syntax error is no class, rather than an error |
| Deltas.ClassPayloadRoundTrip | src/main/java/edu/university/ecs/lab/delta/models/Delta.java:55-72 | the class written into a payload is the class read back |
| Deltas.ConfigPayloadRoundTrip | src/main/java/edu/university/ecs/lab/delta/models/Delta.java:79-96 | the CONFIG file written into a payload is the file read back |
| Deltas.DeltaObject | src/main/java/edu/university/ecs/lab/delta/models/Delta.java:101-110 | the object has exactly the four members, holding the given values |
| Deltas.DeltaToJson | src/main/java/edu/university/ecs/lab/delta/models/Delta.java:101-110 | exactly `changeType` (the kind's enum name), `oldPath`, `newPath` and `data` |
| Deltas.DeltaRoundTrip | src/main/java/edu/university/ecs/lab/delta/models/Delta.java:101-110 | a delta written out and decoded is the same delta |
| Deltas.GetClassChange | src/main/java/edu/university/ecs/lab/delta/models/Delta.java:55-72 | specified by `EmptyPayloadIsNothing`, `NeverBoth`, `SyntaxFailureIsNone` and `ClassPayloadRoundTrip` |
| Deltas.GetConfigChange | src/main/java/edu/university/ecs/lab/delta/models/Delta.java:79-96 | specified by `EmptyPayloadIsNothing`, `NeverBoth` and `ConfigPayloadRoundTrip` |
| Deltas.DecodeDelta | src/main/java/edu/university/ecs/lab/delta/models/Delta.java:31-48 | specified by `DeltaRoundTrip`: a written delta reads back as itself |
| MergeModel.BelowIsStrict | src/main/java/edu/university/ecs/lab/intermediate/merge/services/MergeService.java:191-195 | lying below a directory, the `matches(b + "/.*")` test, is strict: never both ways and never a path below itself |
| MergeModel.Place | src/main/java/edu/university/ecs/lab/intermediate/merge/services/MergeService.java:91-111 | placing a file keeps the system's name, its commit and its number of microservices |
| MergeModel.AddFile | src/main/java/edu/university/ecs/lab/intermediate/merge/services/MergeService.java:84-116 | a change without payload leaves the system as it is; a successful addition keeps the name, the commit and the number of microservices |
| MergeModel.ClassExcludesConfig | src/main/java/edu/university/ecs/lab/intermediate/merge/services/MergeService.java:95-110 | a payload read as a class reads as no configuration file, so the orphan branch (class first) and the owner branch (configuration first) agree |
| MergeModel.RemoveFile | src/main/java/edu/university/ecs/lab/intermediate/merge/services/MergeService.java:124-151 | removing a file keeps the system's name, its commit and its number of microservices |
| MergeModel.ApplyDelta | src/main/java/edu/university/ecs/lab/intermediate/merge/services/MergeService.java:58-69 | one change of the list, when it succeeds, keeps the name, the commit and the number of microservices |
| MergeModel.ApplyAll | src/main/java/edu/university/ecs/lab/intermediate/merge/services/MergeService.java:56-70 | the loop over the change list, when it succeeds, keeps the name, the commit and the number of microservices |
| MergeModel.Filter | src/main/java/edu/university/ecs/lab/intermediate/merge/services/MergeService.java:247-253 | `removeIf`: every element occurs as often as in the input when it is kept and not at all otherwise |
| MergeModel.RemoveFirst | src/main/java/edu/university/ecs/lab/intermediate/merge/services/MergeService.java:273 | `List.remove`: the result is the input less one occurrence of the element, and the input itself when the element is absent |
| MergeModel.FilterBuildDeltasSteps | src/main/java/edu/university/ecs/lab/intermediate/merge/services/MergeService.java:256-308 | the pass over the additions followed by the pass over the deletions gives the returned copy |
| MergeModel.FilterBuildDeltasShrinks | src/main/java/edu/university/ecs/lab/intermediate/merge/services/MergeService.java:242-309 | no change occurs more often in the result than among the candidates the three `removeIf` calls keep |
| MergeModel.FilterBuildDeltasCandidates | src/main/java/edu/university/ecs/lab/intermediate/merge/services/MergeService.java:244-253 | every returned change is one of the input changes, changes a build file, is no modification, and is a deletion only where a microservice owns the old path |
| MergeModel.FilterBuildDeltasDeletions | src/main/java/edu/university/ecs/lab/intermediate/merge/services/MergeService.java:289-305 | the deletion pass drops at most one deletion |
| MergeModel.FilterBuildDeltasAfterAdds | src/main/java/edu/university/ecs/lab/intermediate/merge/services/MergeService.java:263-308 | the deletion pass only removes: no change occurs more often in the result than in the copy after the addition pass |
| MergeModel.MoreSpecificWins | src/main/java/edu/university/ecs/lab/intermediate/merge/services/MergeService.java:279-285 | an addition whose directory has another added directory below it does not survive the filter |
| MergeModel.SameDirectoryAddsKept | src/main/java/edu/university/ecs/lab/intermediate/merge/services/MergeService.java:271-276 | two different additions of build files in the same directory both survive: only `filteredDeltas` loses one, not the returned copy |
| MergeModel.ScanFrom | src/main/java/edu/university/ecs/lab/intermediate/merge/services/MergeService.java:189-198 | a scan that goes on names as the service to retire one that exists |
| MergeModel.ScanFromSpec | src/main/java/edu/university/ecs/lab/intermediate/merge/services/MergeService.java:189-198 | both directions: the scan skips exactly when some service lies below the new directory; otherwise it retires the last service the directory lies below, or none when there is none |
| MergeModel.Retire | src/main/java/edu/university/ecs/lab/intermediate/merge/services/MergeService.java:201-204 | retiring a service keeps the name and the commit and leaves one service fewer |
| MergeModel.RetireSpec | src/main/java/edu/university/ecs/lab/intermediate/merge/services/MergeService.java:201-204 | the services lose exactly the retired one; the invariant is kept; every orphan stays and every class of the retired service joins the pool with the name `""` |
| MergeModel.AddService | src/main/java/edu/university/ecs/lab/intermediate/merge/services/MergeService.java:185-211 | the ADD case, when it succeeds, keeps the name and the commit |
| MergeModel.Supersede | src/main/java/edu/university/ecs/lab/intermediate/merge/services/MergeService.java:201-209 | the ADD case after the scan, when it succeeds, keeps the name and the commit |
| MergeModel.Join | src/main/java/edu/university/ecs/lab/intermediate/merge/services/MergeService.java:206-209 | a joining service keeps the name and the commit |
| MergeModel.AddServiceSkips | src/main/java/edu/university/ecs/lab/intermediate/merge/services/MergeService.java:195-196 | a service below the new directory leaves the system as it is |
| MergeModel.AddServiceUnnamed | src/main/java/edu/university/ecs/lab/intermediate/merge/services/MergeService.java:173-206 | with no service below it and fewer than two path tokens, the addition throws an index exception |
| MergeModel.AddServiceShape | src/main/java/edu/university/ecs/lab/intermediate/merge/services/MergeService.java:185-211 | with no service below it and at least two tokens, the addition succeeds and appends a service named after the next-to-last token with the build file's directory as path; the other services are the old ones, less the retired one when the directory lay below one |
| MergeModel.AddServiceAdopts | src/main/java/edu/university/ecs/lab/intermediate/merge/services/MergeService.java:206-209 | both directions: the new service holds exactly the taken class orphans with a bucketed role, stamped with its name, and the pool keeps every orphan it does not take |
| MergeModel.AddServiceValid | src/main/java/edu/university/ecs/lab/intermediate/merge/services/MergeService.java:185-211 | the ADD case keeps the system's invariant |
| MergeModel.DeleteService | src/main/java/edu/university/ecs/lab/intermediate/merge/services/MergeService.java:214-226 | the DELETE case throws a null-pointer exception exactly when no service owns the directory; otherwise it keeps the name and the commit and leaves one service fewer |
| MergeModel.DeleteServiceSpec | src/main/java/edu/university/ecs/lab/intermediate/merge/services/MergeService.java:214-226 | the owner of the directory, a prefix of it, is retired: the services lose exactly it, the invariant is kept and every orphan stays |
| MergeModel.TopologyStep | src/main/java/edu/university/ecs/lab/intermediate/merge/services/MergeService.java:169-229 | one build change, when it succeeds, keeps the name and the commit |
| MergeModel.TopologyStepValid | src/main/java/edu/university/ecs/lab/intermediate/merge/services/MergeService.java:169-229 | one build change keeps the system's invariant |
| MergeModel.TopologyAll | src/main/java/edu/university/ecs/lab/intermediate/merge/services/MergeService.java:169-231 | the loop over the build changes, when it succeeds, keeps the name and the commit |
| MergeModel.TopologyAllValid | src/main/java/edu/university/ecs/lab/intermediate/merge/services/MergeService.java:169-231 | the loop over the build changes keeps the system's invariant |
| MergeModel.UpdateMicroservices | src/main/java/edu/university/ecs/lab/intermediate/merge/services/MergeService.java:159-234 | `updateMicroservices`, when it succeeds, keeps the name and the commit |
| MergeModel.GenerateMergeIR | src/main/java/edu/university/ecs/lab/intermediate/merge/services/MergeService.java:43-76 | with no change list the IR is returned as it is; otherwise a successful merge keeps the name and moves to the new commit |
| MergeModel.GenerateMergeIRValid | src/main/java/edu/university/ecs/lab/intermediate/merge/services/MergeService.java:43-76 | the merge keeps the system's invariant |
| MergeModel.ValidUpdate | src/main/java/edu/university/ecs/lab/intermediate/merge/services/MergeService.java:107-110 | replacing one service by a valid one keeps the system's invariant |
| MergeModel.PlaceSpec | src/main/java/edu/university/ecs/lab/intermediate/merge/services/MergeService.java:91-111 | placing a file keeps the invariant and every service's name and path |
| MergeModel.PlaceOrphan | src/main/java/edu/university/ecs/lab/intermediate/merge/services/MergeService.java:94-102 | with no owner, the services are unchanged and the pool keeps every orphan and holds the file |
| MergeModel.PlaceOwner | src/main/java/edu/university/ecs/lab/intermediate/merge/services/MergeService.java:105-111 | with an owner, the pool and the other services are unchanged; a configuration file joins the owner's files and leaves its classes alone; the owner's classes become the old ones plus the class stamped with its name, exactly when the class has a bucketed role |
| MergeModel.AddClassPayload | src/main/java/edu/university/ecs/lab/intermediate/merge/services/MergeService.java:95-110 | a class the delta stage wrote into the payload is placed as that class |
| MergeModel.AddConfigPayload | src/main/java/edu/university/ecs/lab/intermediate/merge/services/MergeService.java:97-107 | a configuration file the delta stage wrote into the payload is placed as that file |
| MergeModel.RemoveProjectFileValid | src/main/java/edu/university/ecs/lab/intermediate/merge/services/MergeService.java:146 | removing a file from a service keeps its invariant, its name and its path |
| MergeModel.RemoveFileSpec | src/main/java/edu/university/ecs/lab/intermediate/merge/services/MergeService.java:124-151 | removal keeps the invariant and every service's name and path; with an owner, only the owner changes; without one, the pool only loses, and it loses the first orphan with the old path |
| MergeModel.AddFileValid | src/main/java/edu/university/ecs/lab/intermediate/merge/services/MergeService.java:84-116 | `addFile` keeps the system's invariant |
| MergeModel.ApplyAllValid | src/main/java/edu/university/ecs/lab/intermediate/merge/services/MergeService.java:56-70 | the loop over the change list keeps the system's invariant |
| MergeModel.Below | src/main/java/edu/university/ecs/lab/intermediate/merge/services/MergeService.java:191-195 | specified by `BelowIsStrict`: lying below a directory is strict |
| MergeModel.FilterBuildDeltas | src/main/java/edu/university/ecs/lab/intermediate/merge/services/MergeService.java:242-309 | specified by `FilterBuildDeltasSteps`, `FilterBuildDeltasShrinks`, `FilterBuildDeltasCandidates`, `FilterBuildDeltasDeletions` and `FilterBuildDeltasAfterAdds`, and computed by the loops of `Merging.MergeService.FilterBuildDeltas` |
| MergeModel.Candidates | src/main/java/edu/university/ecs/lab/intermediate/merge/services/MergeService.java:244-253 | the build changes the filter starts from; specified by `FilterBuildDeltasCandidates` and `FilterBuildDeltasShrinks` |
| MergeModel.AddPass | src/main/java/edu/university/ecs/lab/intermediate/merge/services/MergeService.java:263-287 | the pass over the additions; specified by `FilterBuildDeltasSteps` and `FilterBuildDeltasAfterAdds`, and computed by `Merging.AdditionPairs` |
| Merging.AdditionPairs | src/main/java/edu/university/ecs/lab/intermediate/merge/services/MergeService.java:263-287 | the first pair loop ends in the state the addition pass of `MergeModel.FilterBuildDeltas` specifies |
| Merging.AdditionRow | src/main/java/edu/university/ecs/lab/intermediate/merge/services/MergeService.java:264-286 | one row of the first pair loop ends in the state the specification's inner pass gives |
| Merging.DeletionPairs | src/main/java/edu/university/ecs/lab/intermediate/merge/services/MergeService.java:292-305 | the second pair loop ends in the state the deletion pass specifies |
| Merging.DeletionRow | src/main/java/edu/university/ecs/lab/intermediate/merge/services/MergeService.java:293-304 | one row of the second pair loop ends in the state the specification's inner pass gives |
| Merging.SupersedeSteps | src/main/java/edu/university/ecs/lab/intermediate/merge/services/MergeService.java:201-209 | retiring the service found by the scan and then joining the new one is the ADD case of the specification |
| Merging.SupersedeShort | src/main/java/edu/university/ecs/lab/intermediate/merge/services/MergeService.java:173-206 | with fewer than two path tokens the ADD case throws an index exception |
| Merging.RetireSteps | src/main/java/edu/university/ecs/lab/intermediate/merge/services/MergeService.java:202-203 | removing the first equal service and then orphanizing it is the specification's retirement |
| Merging.MergeService.constructor | src/main/java/edu/university/ecs/lab/intermediate/merge/services/MergeService.java:30-38 | the new object holds the system and the change list it is given |
| Merging.MergeService.GenerateMergeIR | src/main/java/edu/university/ecs/lab/intermediate/merge/services/MergeService.java:43-76 | the method ends as `MergeModel.GenerateMergeIR` does on the old state, and on success the system holds its result |
| Merging.MergeService.Stamp | src/main/java/edu/university/ecs/lab/intermediate/merge/services/MergeService.java:72 | only the commit changes |
| Merging.MergeService.ApplyChanges | src/main/java/edu/university/ecs/lab/intermediate/merge/services/MergeService.java:56-70 | the loop ends as `MergeModel.ApplyAll` does, and on success the system holds its result; the list of service objects is not replaced |
| Merging.MergeService.ApplyDelta | src/main/java/edu/university/ecs/lab/intermediate/merge/services/MergeService.java:58-69 | one change ends as `MergeModel.ApplyDelta` does, and on success the system holds its result |
| Merging.MergeService.FilterBuildDeltas | src/main/java/edu/university/ecs/lab/intermediate/merge/services/MergeService.java:242-309 | the returned list is `MergeModel.FilterBuildDeltas` of the services and the change list |
| Merging.MergeService.UpdateMicroservices | src/main/java/edu/university/ecs/lab/intermediate/merge/services/MergeService.java:159-234 | the method ends as `MergeModel.UpdateMicroservices` does, and on success the system holds its result; the service objects stay distinct, and any new one is fresh |
| Merging.MergeService.TopologyStep | src/main/java/edu/university/ecs/lab/intermediate/merge/services/MergeService.java:169-229 | one build change ends as `MergeModel.TopologyStep` does, and on success the system holds its result |
| Merging.MergeService.AddService | src/main/java/edu/university/ecs/lab/intermediate/merge/services/MergeService.java:185-211 | the ADD case ends as `MergeModel.AddService` does, and on success the system holds its result |
| Merging.MergeService.ReplaceService | src/main/java/edu/university/ecs/lab/intermediate/merge/services/MergeService.java:200-211 | the ADD case after the scan ends as `MergeModel.Supersede` does, and on success the system holds its result |
| Merging.MergeService.ScanServices | src/main/java/edu/university/ecs/lab/intermediate/merge/services/MergeService.java:188-198 | the loop skips exactly when the specification's scan skips; otherwise it returns the service object the scan names as the one to remove, or null |
| Merging.MergeService.RetireObject | src/main/java/edu/university/ecs/lab/intermediate/merge/services/MergeService.java:202-203 | the new state is the specification's retirement of that service |
| Merging.MergeService.RemoveEqual | src/main/java/edu/university/ecs/lab/intermediate/merge/services/MergeService.java:202 | the first service whose value equals the target's leaves the list |
| Merging.MergeService.DropAt | src/main/java/edu/university/ecs/lab/intermediate/merge/services/MergeService.java:202 | the list loses the object at the index |
| Merging.MergeService.OrphanizeState | src/main/java/edu/university/ecs/lab/common/models/ir/MicroserviceSystem.java:73-77 | the pool becomes the specification's orphanization of the target; the services are not touched |
| Merging.MergeService.FirstEqual | src/main/java/edu/university/ecs/lab/intermediate/merge/services/MergeService.java:202 | the index of the first service whose value equals the target's |
| Merging.MergeService.JoinNew | src/main/java/edu/university/ecs/lab/intermediate/merge/services/MergeService.java:206-209 | the new state is `MergeModel.Join`: the new service adopts from the pool and joins the list |
| Merging.MergeService.NewAdopted | src/main/java/edu/university/ecs/lab/intermediate/merge/services/MergeService.java:206-208 | a fresh service holding what `adopt` gives a new service with that name and path; the pool becomes what is left |
| Merging.MergeService.Append | src/main/java/edu/university/ecs/lab/intermediate/merge/services/MergeService.java:209 | the list gains the service at its end |
| Merging.MergeService.DeleteService | src/main/java/edu/university/ecs/lab/intermediate/merge/services/MergeService.java:214-226 | the DELETE case ends as `MergeModel.DeleteService` does, a null-pointer exception included, and on success the system holds its result |
| Merging.MergeService.AddFile | src/main/java/edu/university/ecs/lab/intermediate/merge/services/MergeService.java:84-116 | the method ends as `MergeModel.AddFile` does, and on success the system holds its result |
| Merging.MergeService.PlaceFile | src/main/java/edu/university/ecs/lab/intermediate/merge/services/MergeService.java:91-111 | the new state is `MergeModel.Place` of the file |
| Merging.MergeService.AddToPool | src/main/java/edu/university/ecs/lab/intermediate/merge/services/MergeService.java:94-102 | with no owner, the new state is `MergeModel.Place`: the pool gains the file |
| Merging.MergeService.AddToOwner | src/main/java/edu/university/ecs/lab/intermediate/merge/services/MergeService.java:105-111 | with an owner, the new state is `MergeModel.Place`: only the owner changes |
| Merging.MergeService.RemoveFile | src/main/java/edu/university/ecs/lab/intermediate/merge/services/MergeService.java:124-151 | the new state is `MergeModel.RemoveFile` of the change |
| Merging.MergeService.RemoveFromOwner | src/main/java/edu/university/ecs/lab/intermediate/merge/services/MergeService.java:143-146 | with an owner, the new state is `MergeModel.RemoveFile`: only the owner changes |
| Merging.MergeService.RemoveOrphanByPath | src/main/java/edu/university/ecs/lab/intermediate/merge/services/MergeService.java:128-140 | without an owner, the pool loses the first orphan with the path, or stays as it is when there is none |
| Merging.MergeService.OrphanIndex | src/main/java/edu/university/ecs/lab/intermediate/merge/services/MergeService.java:130-137 | the index of the first orphan with the path, or the pool's length when there is none |
| Merging.FilterBuildChanges | src/main/java/edu/university/ecs/lab/intermediate/merge/services/MergeService.java:242-309 | the candidate filter followed by the two pair loops returns `MergeModel.FilterBuildDeltas` of the services and the changes |
| Merging.ScanPaths | src/main/java/edu/university/ecs/lab/intermediate/merge/services/MergeService.java:188-198 | the loop over the services' states skips exactly when `MergeModel.ScanFrom` skips, and otherwise returns the index of the service `ScanFrom` names for removal |
| Matching.MatchMethodIgnores | src/main/java/edu/university/ecs/lab/common/models/ir/MethodCall.java:86-90 | a call matches a method on the service, the receiver type and the name alone: the package, the caller, the receiver's name, the argument text and the method's parameters do not matter |
| Matching.QueryIndex | src/main/java/edu/university/ecs/lab/common/models/ir/RestCall.java:73 | the query index is -1 or a position |
| Matching.BaseURL | src/main/java/edu/university/ecs/lab/common/models/ir/RestCall.java:74 | with no query the whole URL; an index within the URL cuts it there; an index past its end throws |
| Matching.QueryTail | src/main/java/edu/university/ecs/lab/common/models/ir/RestCall.java:103 | the text after the query index, or an exception when the index lies at or past the end |
| Matching.ExpectedName | src/main/java/edu/university/ecs/lab/common/models/ir/RestCall.java:90-101 | the `default` attribute wins, then `name`, which asks for nothing exactly when `required` is `false`; with neither, the parameter's own name |
| Matching.AnnotationsOkSpec | src/main/java/edu/university/ecs/lab/common/models/ir/RestCall.java:88-107 | with an index inside the URL, one parameter passes exactly when every name its `RequestParam` annotations ask for occurs as `name=` after the index |
| Matching.MatchQueryParamsSpec | src/main/java/edu/university/ecs/lab/common/models/ir/RestCall.java:86-110 | with an index inside the URL, the check passes exactly when every expected name occurs as `name=` after the index |
| Matching.NoneExpectedAnnotations | src/main/java/edu/university/ecs/lab/common/models/ir/RestCall.java:88-107 | a parameter with no annotation asking for a name passes, whatever the URL and the index |
| Matching.NoneExpectedPasses | src/main/java/edu/university/ecs/lab/common/models/ir/RestCall.java:86-110 | an endpoint whose parameters ask for no query name passes, whatever the URL and the index |
| Matching.MatchEndpoint | src/main/java/edu/university/ecs/lab/common/models/ir/RestCall.java:68-76 | calls within one service never match; a match means a cut URL equal to the endpoint's, agreeing verbs (or an endpoint for every verb) and a passing query check |
| Matching.PlainURLMatch | src/main/java/edu/university/ecs/lab/common/models/ir/RestCall.java:68-76 | both directions, for a URL without placeholders: it matches exactly when its part before the first `?` is the endpoint's URL, the verbs agree and every expected name occurs after the `?` |
| Matching.ExactURLMatches | src/main/java/edu/university/ecs/lab/common/models/ir/RestCall.java:68-76 | a cross-service call with the endpoint's exact URL, no query and an agreeing verb matches an endpoint that expects no query name |
| Matching.ShiftRewrite | src/main/java/edu/university/ecs/lab/common/models/ir/RestCall.java:73 | on a URL `p{?}?q`, only the placeholder is rewritten to `temp` |
| Matching.ShiftKeepsQuestionMark | src/main/java/edu/university/ecs/lab/common/models/ir/RestCall.java:73-74 | as written, the index of `p{?}?q` is one past its `?`, so the cut URL keeps the `?` |
| Matching.ShiftMissesEndpoint | src/main/java/edu/university/ecs/lab/common/models/ir/RestCall.java:73-75 | as written, a call `p{?}?q` never matches the endpoint at `p{?}` |
| Matching.ShiftOverruns | src/main/java/edu/university/ecs/lab/common/models/ir/RestCall.java:73-74 | as written, a call `p{?}{?}?` throws a string-index exception |
| Matching.Mask | src/main/java/edu/university/ecs/lab/common/models/ir/RestCall.java:73 | masking placeholders keeps the URL's length |
| Matching.MaskQuestionMark | src/main/java/edu/university/ecs/lab/common/models/ir/RestCall.java:73 | a `?` of the masked URL is a `?` of the URL |
| Matching.IntendedQueryIndex | src/main/java/edu/university/ecs/lab/common/models/ir/RestCall.java:73 | the intended index is -1 or the position of a `?` of the URL itself |
| Matching.IntendedMatchEndpoint | src/main/java/edu/university/ecs/lab/common/models/ir/RestCall.java:68-76 | with the intended index: calls within one service never match, and the match never throws |
| Matching.IntendedCutsBeforeQuery | src/main/java/edu/university/ecs/lab/common/models/ir/RestCall.java:73-74 | with the intended index, `p{?}?q` is cut right before its `?` |
| Matching.IntendedReachesEndpoint | src/main/java/edu/university/ecs/lab/common/models/ir/RestCall.java:68-76 | with the intended index, a call `p{?}?q` matches the endpoint at `p{?}` when the verbs agree and no query name is expected |
| Matching.IntendedAgreesWithoutPlaceholders | src/main/java/edu/university/ecs/lab/common/models/ir/RestCall.java:73 | on every URL without placeholders the intended index is the one the code computes |
| Flows.Flow.constructor | src/main/java/edu/university/ecs/lab/common/models/ir/Flow.java:11-24 | a new flow has every link null |
| Flows.CallsFrom | src/main/java/edu/university/ecs/lab/common/utils/FlowUtils.java:152-156 | both directions: the calls kept are exactly those made from the named method; never more than there were |
| Flows.CallsFromAppend | src/main/java/edu/university/ecs/lab/common/utils/FlowUtils.java:152-156 | the filter keeps the call-list order |
| Flows.FindField | src/main/java/edu/university/ecs/lab/common/utils/FlowUtils.java:164-169 | none exactly when no field has the name; otherwise a field of the class with that name |
| Flows.FindFieldFirst | src/main/java/edu/university/ecs/lab/common/utils/FlowUtils.java:164-169 | the field found is the first one with the name |
| Flows.FindMethod | src/main/java/edu/university/ecs/lab/common/utils/FlowUtils.java:193-199 | none exactly when no method has the name; otherwise a method of the class with that name |
| Flows.FindMethodFirst | src/main/java/edu/university/ecs/lab/common/utils/FlowUtils.java:193-199 | the method found is the first one with the name |
| Flows.Candidates | src/main/java/edu/university/ecs/lab/common/utils/FlowUtils.java:180-185 | both directions: the candidates are exactly the classes in the bucket that implement the field's type or are named by it |
| Flows.BaseLinks | src/main/java/edu/university/ecs/lab/common/utils/FlowUtils.java:117-120 | a base flow links its service, its controller and its endpoint and nothing else |
| Flows.EndpointBases | src/main/java/edu/university/ecs/lab/common/utils/FlowUtils.java:116-122 | one base flow per endpoint of the controller, in order |
| Flows.EndpointBasesSpec | src/main/java/edu/university/ecs/lab/common/utils/FlowUtils.java:116-122 | both directions: the base flows of one controller are exactly its endpoints with that service and controller |
| Flows.ControllerBasesSpec | src/main/java/edu/university/ecs/lab/common/utils/FlowUtils.java:115-123 | both directions: the base flows of one service are exactly its controllers paired with their endpoints |
| Flows.BaseFlowsSpec | src/main/java/edu/university/ecs/lab/common/utils/FlowUtils.java:94-126 | both directions: the base flows are exactly the triples of a service, one of its controllers and one endpoint of that controller |
| Flows.RepositoryClasses | src/main/java/edu/university/ecs/lab/common/utils/FlowUtils.java:51-62 | the loop over the repository candidates appends one entry per candidate |
| Flows.OwnersOf | src/main/java/edu/university/ecs/lab/common/utils/FlowUtils.java:22-83 | every entry has the index of a base flow as its owner |
| Flows.NoCallsOnce | src/main/java/edu/university/ecs/lab/common/utils/FlowUtils.java:79-81 | a base flow whose endpoint makes no call is appended exactly once, with its base links |
| Flows.RepositoryClassesKeeps | src/main/java/edu/university/ecs/lab/common/utils/FlowUtils.java:51-62 | the loop over the repository candidates leaves the model, the controller, the endpoint, the controller call and the service alone |
| Flows.RepositoryCallsKeeps | src/main/java/edu/university/ecs/lab/common/utils/FlowUtils.java:42-67 | the loop over a service method's calls leaves the model, the controller, the endpoint, the controller call and the service alone |
| Flows.ServiceClassesKeeps | src/main/java/edu/university/ecs/lab/common/utils/FlowUtils.java:33-72 | the loop over the service candidates leaves the model, the controller, the endpoint and the controller call alone |
| Flows.ServiceCallsLastWins | src/main/java/edu/university/ecs/lab/common/utils/FlowUtils.java:24-77 | the loop over an endpoint's calls keeps the base links and leaves the last call as the flow's controller call |
| Flows.ProcessKeepsBase | src/main/java/edu/university/ecs/lab/common/utils/FlowUtils.java:22-83 | every entry of a base flow still names its service, controller and endpoint, and its endpoint's last call when there is one |
| Flows.MissingFieldsOnePerCall | src/main/java/edu/university/ecs/lab/common/utils/FlowUtils.java:28-75 | when no call names a field of the controller, there is one entry per call |
| Flows.RepositoryCallEntries | src/main/java/edu/university/ecs/lab/common/utils/FlowUtils.java:46-62 | a repository call whose field is found appends one entry per repository candidate |
| Flows.EndpointFlows | src/main/java/edu/university/ecs/lab/common/utils/FlowUtils.java:116-122 | one new flow per endpoint, holding its base flow; all distinct and fresh |
| Flows.ControllerFlows | src/main/java/edu/university/ecs/lab/common/utils/FlowUtils.java:115-123 | one new flow per base flow of the service; all distinct and fresh |
| Flows.GenerateNewFlows | src/main/java/edu/university/ecs/lab/common/utils/FlowUtils.java:110-126 | one new flow per base flow, in that order; all distinct and fresh |
| Flows.WalkRepositoryClasses | src/main/java/edu/university/ecs/lab/common/utils/FlowUtils.java:51-62 | the flow ends with the links the specification gives and the same object is appended once per candidate |
| Flows.WalkRepositoryCalls | src/main/java/edu/university/ecs/lab/common/utils/FlowUtils.java:42-67 | the flow ends with the links the specification gives and is appended as often as it counts |
| Flows.WalkServiceClasses | src/main/java/edu/university/ecs/lab/common/utils/FlowUtils.java:33-72 | the flow ends with the links the specification gives and is appended as often as it counts |
| Flows.WalkServiceCalls | src/main/java/edu/university/ecs/lab/common/utils/FlowUtils.java:24-77 | the flow ends with the links the specification gives and is appended as often as it counts |
| Flows.WalkBase | src/main/java/edu/university/ecs/lab/common/utils/FlowUtils.java:23-81 | the base flow ends with the links of its whole walk and is appended as often as the walk counts |
| Flows.FlowsOfOwners | src/main/java/edu/university/ecs/lab/common/utils/FlowUtils.java:22-83 | every entry carries the final links of its owner |
| Flows.BuildFlows | src/main/java/edu/university/ecs/lab/common/utils/FlowUtils.java:17-86 | the entries' links are those `FlowsOf` gives, every entry is new, and two entries are the same object exactly when they come from the same base flow |
| Flows.WalkAll | src/main/java/edu/university/ecs/lab/common/utils/FlowUtils.java:22-83 | each base flow is walked once and ends with its final links; every entry is its owner's object |
| Flows.WalkNext | src/main/java/edu/university/ecs/lab/common/utils/FlowUtils.java:22-83 | one more base flow is walked: its entries are appended, owned by it, and only its links change |
| Flows.OwnersOfSnoc | src/main/java/edu/university/ecs/lab/common/utils/FlowUtils.java:22-83 | one more base flow adds one owner index per entry of its walk |
| Flows.Finals | src/main/java/edu/university/ecs/lab/common/utils/FlowUtils.java:22-83 | one final set of links per base flow |
| Flows.FinalsAt | src/main/java/edu/university/ecs/lab/common/utils/FlowUtils.java:22-83 | the final links of a base flow are those its walk leaves |
| Flows.SameObjectSameOwner | src/main/java/edu/university/ecs/lab/common/utils/FlowUtils.java:22-83 | with distinct base objects, two entries are the same object exactly when their owners agree |
| Flows.RepositoryCalls | src/main/java/edu/university/ecs/lab/common/utils/FlowUtils.java:42-67 | the walk over the service method's calls; specified by `RepositoryCallsKeeps`, `RepositoryCallEntries` and computed by `WalkRepositoryCalls` |
| Flows.ServiceClasses | src/main/java/edu/university/ecs/lab/common/utils/FlowUtils.java:33-72 | the walk over the service classes; specified by `ServiceClassesKeeps` and computed by `WalkServiceClasses` |
| Flows.ServiceCalls | src/main/java/edu/university/ecs/lab/common/utils/FlowUtils.java:24-77 | the walk over the endpoint's calls; specified by `ServiceCallsLastWins` and `MissingFieldsOnePerCall`, and computed by `WalkServiceCalls` |
| Flows.Process | src/main/java/edu/university/ecs/lab/common/utils/FlowUtils.java:22-83 | the walk of one base flow; specified by `NoCallsOnce`, `ProcessKeepsBase` and `FinalsAt`, and computed by `WalkBase` |
| Flows.FlowsOf | src/main/java/edu/university/ecs/lab/common/utils/FlowUtils.java:22-83 | the links of every appended flow, in order; specified by `OwnersOf` and `FlowsOfOwners`, and the result `BuildFlows` is proved against |
| Git.LineEnd | src/main/java/edu/university/ecs/lab/common/services/GitService.java:253 | `//.*` ends at the first line terminator after it, or at the end of the text |
| Git.CloseFrom | src/main/java/edu/university/ecs/lab/common/services/GitService.java:253 | a block comment closes at the first `*/` after its opening; none when there is no `*/` |
| Git.Strip | src/main/java/edu/university/ecs/lab/common/services/GitService.java:252-254 | the stripped text is never longer and holds no whitespace |
| Git.StripKeeps | src/main/java/edu/university/ecs/lab/common/services/GitService.java:252-254 | a character other than `/` and whitespace is kept |
| Git.StripLeadingSpace | src/main/java/edu/university/ecs/lab/common/services/GitService.java:252-254 | leading whitespace makes no difference |
| Git.StripLineComment | src/main/java/edu/university/ecs/lab/common/services/GitService.java:252-254 | a line comment is removed up to its line break, and the break with it |
| Git.StripTrailingLineComment | src/main/java/edu/university/ecs/lab/common/services/GitService.java:252-254 | a line comment that runs to the end of the text removes the rest |
| Git.StripBlockComment | src/main/java/edu/university/ecs/lab/common/services/GitService.java:252-254 | a block comment without an inner `*/` is removed as a whole |
| Git.IsCodeChangeSpec | src/main/java/edu/university/ecs/lab/common/services/GitService.java:191-206 | both directions: an entry is no change exactly when one of its paths is a Java file and the stripped contents agree |
| Git.CommentedEditIsNoChange | src/main/java/edu/university/ecs/lab/common/services/GitService.java:191-206 | re-indenting a Java file and putting a block comment in front is no change |
| Git.Differences | src/main/java/edu/university/ecs/lab/common/services/GitService.java:165-170 | both directions: the entries kept are exactly the raw entries that are code changes; never more than there were |
| Git.DifferencesAppend | src/main/java/edu/university/ecs/lab/common/services/GitService.java:168-170 | the filter keeps the raw order |
| Git.IsCodeChange | src/main/java/edu/university/ecs/lab/common/services/GitService.java:191-206 | specified by `IsCodeChangeSpec` and `CommentedEditIsNoChange` |
| DeltaExtraction.DeltaPaths | src/main/java/edu/university/ecs/lab/delta/services/DeltaExtractionService.java:130-145 | an added file's old side and a deleted file's new side are `/dev/null`; every side that exists is its git path under a leading separator |
| DeltaExtraction.FromDiffEntry | src/main/java/edu/university/ecs/lab/delta/models/enums/ChangeType.java:13-24 | both directions: the conversion succeeds exactly for ADD, MODIFY and DELETE, which keep their name; a rename or a copy throws an illegal-argument exception |
| DeltaExtraction.Add | src/main/java/edu/university/ecs/lab/delta/services/DeltaExtractionService.java:179-199 | a configuration path or a class path whose parser gives nothing yields the empty object; any other payload carries a `fileType` |
| DeltaExtraction.PassOf | src/main/java/edu/university/ecs/lab/delta/services/DeltaExtractionService.java:115-160 | an entry stores a change type exactly when it passes the skip rules and is no rename or copy |
| DeltaExtraction.Passes | src/main/java/edu/university/ecs/lab/delta/services/DeltaExtractionService.java:115-161 | one pass per entry, in order |
| DeltaExtraction.Surviving | src/main/java/edu/university/ecs/lab/delta/services/DeltaExtractionService.java:117-127 | both directions: the surviving entries are exactly those that are not the root `pom.xml` and that `isValidFile` accepts |
| DeltaExtraction.SkipRule | src/main/java/edu/university/ecs/lab/delta/services/DeltaExtractionService.java:117-127 | both directions: an entry yields nothing exactly when it is skipped |
| DeltaExtraction.UnknownKind | src/main/java/edu/university/ecs/lab/delta/services/DeltaExtractionService.java:117-147 | a rename or copy of a skipped path is ignored; any other rename or copy ends the loop with an illegal-argument exception |
| DeltaExtraction.EntryDelta | src/main/java/edu/university/ecs/lab/delta/services/DeltaExtractionService.java:129-160 | a delta has the entry's kind and paths; ADD carries the payload read at the new path, MODIFY the one read at the old path, DELETE the empty object |
| DeltaExtraction.ExtractFinishes | src/main/java/edu/university/ecs/lab/delta/services/DeltaExtractionService.java:115-161 | both directions: the loop finishes exactly when no entry fails |
| DeltaExtraction.ExtractKept | src/main/java/edu/university/ecs/lab/delta/services/DeltaExtractionService.java:115-161 | a finished loop returns the deltas of the entries that yield one, in order |
| DeltaExtraction.KeptSurviving | src/main/java/edu/university/ecs/lab/delta/services/DeltaExtractionService.java:115-161 | when no entry fails, the entries that yield a delta are the surviving ones |
| DeltaExtraction.ExtractSurviving | src/main/java/edu/university/ecs/lab/delta/services/DeltaExtractionService.java:115-161 | one delta per surviving entry, in input order, each the one its entry yields |
| DeltaExtraction.RunSpec | src/main/java/edu/university/ecs/lab/delta/services/DeltaExtractionService.java:106-169 | the loop ends as the extraction does, and a finished loop leaves exactly the extracted deltas in the change list |
| DeltaExtraction.Advances | src/main/java/edu/university/ecs/lab/delta/services/DeltaExtractionService.java:115-161 | one more pass either appends the entry's delta and goes on, or ends the run with the deltas so far |
| DeltaExtraction.DeltaExtractor.constructor | src/main/java/edu/university/ecs/lab/delta/services/DeltaExtractionService.java:73-79 | the new object holds the two commits and the parsers, with no system change and no change type yet |
| DeltaExtraction.DeltaExtractor.ProcessDelta | src/main/java/edu/university/ecs/lab/delta/services/DeltaExtractionService.java:106-169 | the system change runs between the two commits and holds the deltas the run gives; the method ends as the run does, and the change type field holds the one the run leaves |
| DeltaExtraction.DeltaExtractor.Advance | src/main/java/edu/university/ecs/lab/delta/services/DeltaExtractionService.java:115-161 | one turn appends what the entry yields to the change list, or returns how the loop ends |
| DeltaExtraction.DeltaExtractor.ProcessEntry | src/main/java/edu/university/ecs/lab/delta/services/DeltaExtractionService.java:116-158 | the body of the loop gives the entry's outcome, stores the change type the pass sets, and leaves the system change alone |
| DeltaExtraction.DeltaExtractor.GetSystemChange | src/main/java/edu/university/ecs/lab/delta/services/DeltaExtractionService.java:201-203 | the getter returns the system change field |
| DeltaExtraction.Create | src/main/java/edu/university/ecs/lab/delta/services/DeltaExtractionService.java:214-218 | both directions: the call succeeds exactly when the extraction over the filtered diff does, and then returns the system change between the two commits holding its deltas; otherwise it throws the same exception |
| DeltaExtraction.PathOf | src/main/java/edu/university/ecs/lab/delta/services/DeltaExtractionService.java:115 | the path the skip rules test; used by `Surviving` and `SkipRule` |
| DeltaExtraction.Skipped | src/main/java/edu/university/ecs/lab/delta/services/DeltaExtractionService.java:117-127 | the skip rules; specified by `SkipRule` and `Surviving` |
| DeltaExtraction.Payload | src/main/java/edu/university/ecs/lab/delta/services/DeltaExtractionService.java:148-157 | the payload per kind; specified by `EntryDelta`: ADD reads the new path, MODIFY the old one, DELETE is empty |
| DeltaExtraction.Entry | src/main/java/edu/university/ecs/lab/delta/services/DeltaExtractionService.java:116-158 | the body of the `processDelta` loop; specified by `SkipRule`, `UnknownKind`, `EntryDelta` and `PassOf`, and computed by `DeltaExtractor.ProcessEntry` |
| DeltaExtraction.Extract | src/main/java/edu/university/ecs/lab/delta/services/DeltaExtractionService.java:115-161 | the loop over the entries; specified by `ExtractFinishes`, `ExtractKept` and `ExtractSurviving` |
| DeltaExtraction.Run | src/main/java/edu/university/ecs/lab/delta/services/DeltaExtractionService.java:106-169 | the loop with its partial results; specified by `RunSpec` and `Advances`, and computed by `DeltaExtractor.ProcessDelta` |
| DeltaExtraction.Kept | src/main/java/edu/university/ecs/lab/delta/services/DeltaExtractionService.java:115-161 | the entries that yield a delta; specified by `ExtractKept` and `KeptSurviving` |
| NonJson.BaseName | src/main/java/edu/university/ecs/lab/common/utils/NonJsonReadWriteUtils.java:79 | `getName`: a suffix of the path without separators, preceded by a separator when it is not the whole path |
| NonJson.BaseNameOfName | src/main/java/edu/university/ecs/lab/common/utils/NonJsonReadWriteUtils.java:79 | the name after the last separator is the base name |
| NonJson.Instructions | src/main/java/edu/university/ecs/lab/common/utils/NonJsonReadWriteUtils.java:66-68 | one instruction per line, each the trimmed line, in order, blank lines included |
| NonJson.DockerDataShape | src/main/java/edu/university/ecs/lab/common/utils/NonJsonReadWriteUtils.java:72-77 | the data has the one key `instructions`, whose array holds one string per line, the trimmed line |
| NonJson.ReadFromDocker | src/main/java/edu/university/ecs/lab/common/utils/NonJsonReadWriteUtils.java:61-80 | no file when it cannot be read; otherwise a configuration file at its git path, named by its base name, with the instruction data |
| NonJson.ToJsonArray | src/main/java/edu/university/ecs/lab/common/utils/NonJsonReadWriteUtils.java:73-76 | one JSON string per instruction, in order |
| NonJson.Put | src/main/java/edu/university/ecs/lab/common/utils/NonJsonReadWriteUtils.java:124-144 | adding to the innermost block keeps the number of open blocks |
| NonJson.Pop | src/main/java/edu/university/ecs/lab/common/utils/NonJsonReadWriteUtils.java:130 | closing a nested block leaves one block fewer |
| NonJson.ReadFromGradle | src/main/java/edu/university/ecs/lab/common/utils/NonJsonReadWriteUtils.java:107-158 | no file when it cannot be read; otherwise the read succeeds exactly when the script's reading does, giving a configuration file at its git path with the read tree, and fails with the reading's exception |
| NonJson.ReadLine | src/main/java/edu/university/ecs/lab/common/utils/NonJsonReadWriteUtils.java:117-146 | one line of the loop is the specification's step |
| NonJson.ReadOpen | src/main/java/edu/university/ecs/lab/common/utils/NonJsonReadWriteUtils.java:123-128 | the `{` branch is the specification's opening of a block |
| NonJson.ReadClose | src/main/java/edu/university/ecs/lab/common/utils/NonJsonReadWriteUtils.java:129-131 | the `}` branch is the specification's closing of a block |
| NonJson.ReadProperty | src/main/java/edu/university/ecs/lab/common/utils/NonJsonReadWriteUtils.java:132-138 | the `=` branch is the specification's setting of a property |
| NonJson.ReadPlain | src/main/java/edu/university/ecs/lab/common/utils/NonJsonReadWriteUtils.java:139-146 | the last branch is the specification's appending of a line |
| NonJson.BlankLine | src/main/java/edu/university/ecs/lab/common/utils/NonJsonReadWriteUtils.java:119-121 | blank lines change nothing |
| NonJson.OpenBlock | src/main/java/edu/university/ecs/lab/common/utils/NonJsonReadWriteUtils.java:123-128 | a line ending in `{` puts an empty object under the trimmed text before the brace, opens it as the innermost block and makes the text the current key |
| NonJson.CloseBlock | src/main/java/edu/university/ecs/lab/common/utils/NonJsonReadWriteUtils.java:129-131 | a `}` inside a nested block closes it and clears the current key; the tree stays the same |
| NonJson.CloseRoot | src/main/java/edu/university/ecs/lab/common/utils/NonJsonReadWriteUtils.java:129-131 | a `}` at the outermost level closes the root block, whose tree is final from then on |
| NonJson.AfterRoot | src/main/java/edu/university/ecs/lab/common/utils/NonJsonReadWriteUtils.java:123-146 | once the root is closed, a line that touches the stack throws `EmptyStackException` and any other line is dropped |
| NonJson.Property | src/main/java/edu/university/ecs/lab/common/utils/NonJsonReadWriteUtils.java:132-138 | a line `k=v` sets the property named by the trimmed text before the first `=` to the trimmed rest, with single quotes turned into double quotes |
| NonJson.SplitAtFirst | src/main/java/edu/university/ecs/lab/common/utils/NonJsonReadWriteUtils.java:133-137 | `split("=", 2)` cuts at the first `=` |
| NonJson.PlainLine | src/main/java/edu/university/ecs/lab/common/utils/NonJsonReadWriteUtils.java:139-146 | any other line is dropped without a current key; otherwise it starts or extends the array under the current key in the innermost block, and a non-array there throws `ClassCastException` |
| NonJson.OpenSound | src/main/java/edu/university/ecs/lab/common/utils/NonJsonReadWriteUtils.java:123-128 | opening keeps the reader valid and throws only once the root is closed |
| NonJson.CloseSound | src/main/java/edu/university/ecs/lab/common/utils/NonJsonReadWriteUtils.java:129-131 | closing keeps the reader valid and throws only once the root is closed |
| NonJson.SetSound | src/main/java/edu/university/ecs/lab/common/utils/NonJsonReadWriteUtils.java:132-138 | setting keeps the reader valid and throws only once the root is closed |
| NonJson.AppendSound | src/main/java/edu/university/ecs/lab/common/utils/NonJsonReadWriteUtils.java:139-146 | appending keeps the reader valid and throws `EmptyStackException` only once the root is closed |
| NonJson.StepSound | src/main/java/edu/university/ecs/lab/common/utils/NonJsonReadWriteUtils.java:116-147 | a step keeps the reader valid, only a `}` closes the root, and `EmptyStackException` comes only after that |
| NonJson.RunValid | src/main/java/edu/university/ecs/lab/common/utils/NonJsonReadWriteUtils.java:116-147 | reading a script keeps the reader valid and never diverges |
| NonJson.EmptyStackNeedsRootClose | src/main/java/edu/university/ecs/lab/common/utils/NonJsonReadWriteUtils.java:116-147 | a script read from an open root that throws `EmptyStackException` holds a `}` line |
| NonJson.Open | src/main/java/edu/university/ecs/lab/common/utils/NonJsonReadWriteUtils.java:123-128 | the `{` branch; computed by `ReadOpen` and specified by `OpenBlock` and `OpenSound` |
| NonJson.Close | src/main/java/edu/university/ecs/lab/common/utils/NonJsonReadWriteUtils.java:129-131 | the `}` branch; computed by `ReadClose` and specified by `CloseBlock`, `CloseRoot` and `CloseSound` |
| NonJson.SetProperty | src/main/java/edu/university/ecs/lab/common/utils/NonJsonReadWriteUtils.java:132-138 | the `=` branch; computed by `ReadProperty` and specified by `Property`, `SplitAtFirst` and `SetSound` |
| NonJson.Append | src/main/java/edu/university/ecs/lab/common/utils/NonJsonReadWriteUtils.java:139-146 | the last branch; computed by `ReadPlain` and specified by `PlainLine` and `AppendSound` |
| NonJson.Step | src/main/java/edu/university/ecs/lab/common/utils/NonJsonReadWriteUtils.java:117-146 | the body of the while loop; computed by `ReadLine` and specified by `BlankLine`, `StepSound` and the four branch lemmas |
| NonJson.Run | src/main/java/edu/university/ecs/lab/common/utils/NonJsonReadWriteUtils.java:116-147 | the while loop; specified by `RunValid` and `EmptyStackNeedsRootClose`, and computed by `ReadFromGradle` |
| NonJson.GradleData | src/main/java/edu/university/ecs/lab/common/utils/NonJsonReadWriteUtils.java:107-158 | the object the Gradle reader returns; computed by `ReadFromGradle` |
| Deltas.ParseChangeType | src/main/java/edu/university/ecs/lab/delta/models/Delta.java:104 | a change-type name read back gives the kind with that name |
| Ir.SetAdd | src/main/java/edu/university/ecs/lab/common/models/ir/Microservice.java:123-136 | `Set.add`: the element is present afterwards, nothing else is added, and a present element leaves the set as it is |
| Ir.SetRemove | src/main/java/edu/university/ecs/lab/common/models/ir/Microservice.java:165-179 | `Set.remove`: the element is absent afterwards, every other element stays, and an absent element leaves the set as it is |
| Ir.Distinct | src/main/java/edu/university/ecs/lab/common/models/ir/Microservice.java:254-262 | `new HashSet`/`addAll`: no duplicates, exactly the elements of the input, and a duplicate-free input as it is |
| Ir.GetFileType | src/main/java/edu/university/ecs/lab/common/models/ir/JClass.java:68-82 | a class is always of type JCLASS |
| Ir.EndpointsOf | src/main/java/edu/university/ecs/lab/common/models/ir/JClass.java:114 | both directions: exactly the methods that are endpoints |
| Ir.RestCallsOf | src/main/java/edu/university/ecs/lab/common/models/ir/JClass.java:123-126 | both directions: exactly the calls that are REST calls, never more than there were |
| Ir.StampMethods | src/main/java/edu/university/ecs/lab/common/models/ir/JClass.java:135 | every method, in place, carries the new service name and nothing else changes |
| Ir.StampCalls | src/main/java/edu/university/ecs/lab/common/models/ir/JClass.java:134 | every call, in place, carries the new service name and nothing else changes |
| MicroserviceModel.ClassFiles | src/main/java/edu/university/ecs/lab/common/models/ir/Microservice.java:272-274 | every class is among the files, and every such file is one of the classes |
| MicroserviceModel.ConfigFiles | src/main/java/edu/university/ecs/lab/common/models/ir/Microservice.java:273 | every configuration file is among the files, and every such file is one of them |
| MicroserviceModel.EndpointsOfClasses | src/main/java/edu/university/ecs/lab/common/models/ir/Microservice.java:293-296 | both directions: exactly the endpoints of the given classes |
| MicroserviceModel.RestCallsOfClasses | src/main/java/edu/university/ecs/lab/common/models/ir/Microservice.java:283-286 | both directions: exactly the REST calls of the given classes |
| SystemModel.FindOrphanClass | src/main/java/edu/university/ecs/lab/common/models/ir/MicroserviceSystem.java:118 | none exactly when no class orphan has the path; otherwise a class orphan with that path |
| SystemModel.ServiceWithFile | src/main/java/edu/university/ecs/lab/common/models/ir/MicroserviceSystem.java:149-157 | none exactly when no service has a configuration file at the path; otherwise the first service that has one |
| SystemModel.AdoptEach | src/main/java/edu/university/ecs/lab/common/models/ir/MicroserviceSystem.java:162-164 | the loop over the services keeps their number |
| Systems.MicroserviceSystem.AdoptAt | src/main/java/edu/university/ecs/lab/common/models/ir/MicroserviceSystem.java:162-164 | one turn of the loop: service `i` adopts and the list, the name and the commit stay |
| JavaStrings.ToLower | src/main/java/edu/university/ecs/lab/common/utils/SourceToObjectUtils.java:479 | every character is lowered where it is an ASCII capital and kept otherwise; the length is kept |

## Left out

Deduplication in hash sets:
- Ir.SetAdd: adds an element unless a structurally equal one is already present. The Java `HashSet` uses Lombok `equals`, which compares fewer fields: `Method` leaves out its name, `Field` compares only its type, `Annotation` only its attributes, and `Parameter` only its type and annotations. So Java can merge two members that the model keeps apart, e.g. two parameterless, unannotated methods with the same return type.
- Ir.Distinct: structural equality, not the Lombok equality above, for the same reason.
- Ir.SetRemove: drops the first structurally equal element. Java drops an element equal under Lombok `equals` and hash code.
- SourceToObject.ParseAnnotations: deduplicates annotations structurally. Java's set keeps one annotation per attribute map, so two marker annotations merge into one.
- SourceToObject.ParsedMethods: deduplicates methods structurally. Java's set merges methods that differ only in name, so a name lookup such as `findServiceMethod` (FlowUtils.java:193-199) can miss a method that the model finds.
- SourceToObject.ParsedFields: deduplicates fields structurally. Java's set keeps one field per type, so `findServiceField` (FlowUtils.java:164-169) can miss a field that the model finds.
- Serialization.CollectSet: rebuilds decoded sets with structural deduplication, not Lombok equality.

Iteration order:
- Ir.SetAdd: every Java `HashSet` and `HashMap` iteration order is fixed here as insertion order. This covers the set of services, the class sets and the `controllerMap` whose entries `generateNewFlows` visits (Flows.BaseFlowsSpec). Java's order depends on hash codes.

Adopting orphans (see the second Findings row):
- SystemModel.AdoptStep: follows the evidently intended behaviour that the rest of the model uses: an adopted class leaves the orphan pool. The code as written is SystemModel.AdoptStepAsWritten, and Systems.MicroserviceSystem.AdoptAt follows the intended turn.
- SystemModel.AdoptAllOrphans: proved for the intended turn. As written, a re-stamped class can stay in the pool and also be in the service.
- Systems.MicroserviceSystem.Orphanize: classes are values, so the orphanized service keeps its classes with their old microservice name. In Java, `orphanize` (MicroserviceSystem.java:73-77) calls `updateMicroserviceName("")` on the service's own `JClass` objects, so the service, and anyone holding it, sees them blanked too. The aliasing between pool and service is not modelled.
- Systems.MicroserviceSystem.OrphanizeAndAdopt: for the same reason, when the orphanized service is itself in the system, its classes stay stamped with its name in the model. In Java they are the pool's objects, and an adopting service re-stamps them in place (MicroserviceSystem.java:93-94), so the old service then shows the adopter's name.
- SystemModel.OrphanizeAndAdopt: the same in-place re-stamping and aliasing is not modelled by the specification function.
- Merging.MergeService.RemoveOrphanByPath: removes the orphan with the given path. In Java, `getOrphans().remove(orphan)` (MergeService.java:133) misses a pool entry whose hash code went stale because it was re-stamped after insertion, so such an entry stays.
- Merging.MergeService.Append: adds a service unconditionally. Java's `HashSet.add` (MergeService.java:209) ignores a service equal by value to one already present.
- MergeModel.Join: appends in the same way as Merging.MergeService.Append, for the same reason.

Regular expressions and string functions:
- JavaAst.Expr.Text: a string literal carries one string, used both as the unescaped value `asString` returns and, between quotes, as the source text `toString` prints. Escape sequences are not modelled, so the two agree here while in Java they differ for a literal holding `\"`, `\\` or another escape.
- RestCallTemplate.BackupMatch: reads the `.` of `backupParseURL`'s pattern `".*(/.+?)"` as matching every character. Java's `.` does not match line terminators.
- RestCallTemplate.BackupParseURL: the same `.` approximation as RestCallTemplate.BackupMatch.
- MergeModel.Below: reads `a.matches(b + "/.*")` as "a starts with b followed by `/`", taking `b` literally. In Java `b` is a pattern: a `.` in a service path matches any character, other metacharacters can throw `PatternSyntaxException`, and `.*` stops at a line terminator.
- JavaStrings.ToLower: lowers ASCII letters only. `String.toLowerCase` applies full Unicode case mapping.
- SourceToObject.DefaultResourcePrefix: inherits the ASCII-only lowering of JavaStrings.ToLower.
- Git.Strip: scans for the comment pattern of `strip` by hand and does not model the regex engine.

JSON decoding:
- Serialization.DecodeJClass: decodes strictly, so an object without a member fails. Gson's reflective decoding sets the field to null and the program continues. The same holds for Serialization.DecodeField, Serialization.DecodeAnnotation, Serialization.DecodeParameter and Serialization.DecodeConfigFile.
- Deltas.DecodeDelta: decodes strictly in the same way. A non-object, a missing or null member, or an unknown `changeType` name fails with a JSON syntax error, where Gson leaves a field null or reads an unknown enum name as null.
- Serialization.JClassToJson: Gson's own mechanics (`toJsonObject` through `JsonObject` trees, the type adapters) are replaced by a direct encoding into the `Json` value type, and the round trip is proved against it. The JSON form of `Flow` is not modelled.

Outcomes the model represents explicitly:
- RestCallTemplate.ParseURL: for a parenthesised expression, `parseURL` calls itself on the same expression and never returns (in practice a `StackOverflowError`). The model returns None for this case.
- MergeModel.DeleteService: the topology DELETE branch dereferences a missing service. The model gives `Throws(NPE)`.

Input, output and foreign code (all become inputs of the model):
- Merging.MergeService.constructor: takes the already decoded IR, delta and configuration. The Java constructor reads them from JSON files.
- DeltaExtraction.DeltaExtractor.constructor: takes the configuration and the per-entry parse results as values. JGit repository access, the diff computation and reading files are I/O.
- SourceToObject.StaticValues: takes the microservice name as an argument. `getMicroserviceName` (SourceToObjectUtils.java:360-363) splits the file path. A file that JavaParser cannot parse (`generateStaticValues` failing) is not modelled.
- SourceToObject.ClassOf: takes the parsed compilation unit. JavaParser itself, the symbol solver's type resolution and `filterClassAnnotations` (SourceToObjectUtils.java:446-457) are represented by that input.
- SourceToObject.ConfigurationReader: models only the dispatch on the file name. `readFromYaml` and `readFromPom` (NonJsonReadWriteUtils.java:36-104) are library parsers and are not part of this model. `handleJS` (SourceToObjectUtils.java:548-574) is not part of this model either.
- Flows.BuildFlows: the overload of `generateNewFlows` at FlowUtils.java:128-144 is never called and is not modelled. Microservice `getMethodCalls`/`getMethods` (Microservice.java:303-314) are plain getters.
- `writeToJSON`, `createAndWrite` and the file reading of the services are I/O and are not modelled. Configuration files become values.

## Findings

| source | as written | input that shows it | evidently intended | confidence | as-written member | corrected member |
|---|---|---|---|---|---|---|
| src/main/java/edu/university/ecs/lab/common/models/ir/RestCall.java:72-74 | the index of `?` is computed on the URL with every `{?}` replaced by `temp`, which is four characters for three, but the original URL is cut at that index; each `{?}` before the query moves the cut one place to the right | the call `p{?}?q` keeps its `?` in the base URL `p{?}?`, so it does not match the endpoint `p{?}`; the call `p{?}{?}?` is cut past its end and throws `StringIndexOutOfBoundsException` | the base URL is the call URL up to its first `?`, with `{?}` segments masked so they are not mistaken for the query | not executed | Matching.MatchEndpoint, with Matching.ShiftMissesEndpoint and Matching.ShiftOverruns | Matching.IntendedMatchEndpoint, with Matching.IntendedReachesEndpoint |
| src/main/java/edu/university/ecs/lab/common/models/ir/MicroserviceSystem.java:94-96 | `adopt` calls `updateMicroserviceName` on a class before `updatedOrphans.remove`, and that call changes the class's hash code | an orphan class with one method stamped with "" (as `orphanize` leaves it) is adopted by a service named `s`: the removal misses and the class stays in the pool as well as in the service | an adopted class leaves the orphan pool | not executed | SystemModel.AdoptStepAsWritten, with SystemModel.StampChangesClass and SystemModel.AdoptMissKeepsClass | SystemModel.AdoptStep, with SystemModel.AdoptAllOrphans |

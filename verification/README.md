# Code generator naming helpers, in Dafny

A model of the small helpers the C++ client-library code generator uses to
name what it writes:

- the generated-file suffix;
- `#include` lines, local and system;
- `CamelCaseToSnakeCase`;
- the file path of a service (`ServiceNameToFilePath`);
- the fully qualified C++ name of a protobuf name (`ProtoNameToCppName`);
- the namespace chain of a product (`BuildNamespaces`, with its `NORMAL` and
  `INTERNAL` kinds);
- the validation of the generator's parameters (`ProcessCommandLineArgs`),
  from the parsed key/value pairs on.

Modules:

| module | file | what it holds |
|---|---|---|
| `Ascii` | `ascii.dfy` | `isupper`, `islower`, `isdigit`, `tolower` and `toupper` in the "C" locale, and `absl::AsciiStrToUpper` |
| `Status` | `status.dfy` | `StatusOr` as a value or an error with a code and a message |
| `Strings` | `strings.dfy` | `absl::StrSplit`, `StrJoin`, `StrReplaceAll` and `ConsumeSuffix`, for the one-character delimiters the helpers use, with their round trips |
| `SnakeCase` | `snake_case.dfy` | the snake_case scan: a pure definition, the loop as the source writes it, and its properties |
| `CodegenUtils` | `codegen_utils.dfy` | the helpers themselves and their properties |
| `CodegenUtilsExamples` | `codegen_utils_examples.dfy` | the expected values of the source's unit tests, proved |

Strings are sequences of characters. Classification and case mapping follow
the "C" locale: only the 26 ASCII letters of each case are letters, and
every other character is left as it is.

Undefined behaviour in the source becomes a precondition:

- `BuildNamespaces` dereferences the lookup of `product_path` without
  checking it. It also takes the second-to-last piece of the split path,
  which needs at least one `/`.
- `ProcessCommandLineArgs` reads `front()` of the value and, once a leading
  `/` is dropped, `back()` of what is left. The value must therefore be
  non-empty and must not be `/` (`NormalizablePath`).

In four places the code does something a reader might not expect, and the
model follows the code:

- The first snake_case rule does not put an `_` after every capital of a
  run. It fires only before a capital that is followed by a lower-case
  letter, so `ABCDef` gives `abc_def` and not `a_b_c_def`
  (`CodegenUtilsExamples.SnakeCaseAcronymBeforeWord`).
- The product name is the second-to-last `/`-piece of the path, not the last
  non-empty one. So `a//` names the empty product, and the namespace chain
  is `google`, `cloud`, `` and `_CLIENT_NS`
  (`CodegenUtilsExamples.BuildNamespacesDoubleSlashExample`).
- Normalising the product path drops only one leading `/`. So `//x` becomes
  `/x/`, which still starts with `/`, and normalising twice is not the same
  as normalising once (`CodegenUtils.NormalizeTwice`).
- `ServiceNameToFilePath` is defined on every input, the empty name
  included: splitting `""` gives one empty piece.

## Model

| member | source | states |
|---|---|---|
| Ascii.ToLower | generator/internal/codegen_utils.cc:55 | the result is never upper case; an upper-case letter becomes its own lower-case counterpart, 32 code points on; everything else is unchanged |
| Ascii.ToUpper | generator/internal/codegen_utils.cc:97 | the result is never lower case; a lower-case letter becomes its own upper-case counterpart, 32 code points back; everything else is unchanged |
| Ascii.CaseRoundTrip | generator/internal/codegen_utils.cc:55 | lower-casing and then upper-casing gives back an upper-case letter, and the other way round for a lower-case letter |
| Ascii.StrToUpper | generator/internal/codegen_utils.cc:97 | same length as the input, and every character is upper-cased in place |
| Strings.Split | generator/internal/codegen_utils.cc:79 | never empty; at least two pieces when the delimiter occurs; no piece contains the delimiter |
| Strings.Join | generator/internal/codegen_utils.cc:81-84 | no pieces give the empty string; otherwise the result starts with the first piece and is as long as the pieces together plus one separator per neighbouring pair |
| Strings.JoinSplit | generator/internal/codegen_utils.cc:79-84 | joining the pieces of a split with the delimiter gives back the input |
| Strings.SplitJoin | generator/internal/codegen_utils.cc:79-84 | splitting a join of delimiter-free pieces gives back the pieces |
| Strings.SplitLength | generator/internal/codegen_utils.cc:79 | a split has one piece more than the input has delimiters |
| Strings.SplitTrailingPiece | generator/internal/codegen_utils.cc:95-96 | a delimiter-free piece after the last delimiter is the last piece of the split |
| Strings.ReplaceAll | generator/internal/codegen_utils.cc:88 | the length grows by the replacement's extra length per delimiter; a replacement without the delimiter leaves none behind |
| Strings.ReplaceAllIsJoinSplit | generator/internal/codegen_utils.cc:88 | replacing each delimiter is the same as splitting on it and joining with the replacement |
| Strings.ReplaceAllAppend | generator/internal/codegen_utils.cc:88 | replacement distributes over concatenation |
| Strings.ConsumeSuffix | generator/internal/codegen_utils.cc:80 | with the suffix present, the result followed by the suffix is the input; without it, the input is unchanged |
| Strings.ConsumeAppendedSuffix | generator/internal/codegen_utils.cc:80 | a suffix appended and then consumed is gone again |
| SnakeCase.CamelCaseToSnakeCase | generator/internal/codegen_utils.cc:47-76 | the output has one character per input character plus one `_` per boundary, and no upper-case letter |
| SnakeCase.CamelCaseToSnakeCaseLoop | generator/internal/codegen_utils.cc:47-76 | the loop with its two `continue` branches computes the pure definition |
| SnakeCase.RuleAt | generator/internal/codegen_utils.cc:50-70 | the two look-ahead rules, tried in order, fire exactly where the single boundary predicate holds; the second fires only when the first cannot |
| SnakeCase.Placement | generator/internal/codegen_utils.cc:47-76 | input character i lands lower-cased at its image position; an `_` follows it at a boundary; any output character other than `_` or a lower-case letter comes from the input |
| SnakeCase.LengthBounds | generator/internal/codegen_utils.cc:47-76 | the empty input gives the empty output; otherwise the output length is between n and 2n-1 |
| SnakeCase.FixedPointIffNoUpper | generator/internal/codegen_utils.cc:47-76 | the conversion leaves a string unchanged if and only if it has no upper-case letter |
| SnakeCase.Idempotent | generator/internal/codegen_utils.cc:47-76 | converting twice is the same as converting once |
| SnakeCase.KeepsAbsentCharacters | generator/internal/codegen_utils.cc:47-76 | a character that is neither a letter nor `_` appears in the output only if it appears in the input |
| CodegenUtils.GeneratedFileSuffix | generator/internal/codegen_utils.cc:37 | the suffix is `.gcpcxx.pb` |
| CodegenUtils.LocalInclude | generator/internal/codegen_utils.cc:39-41 | the line is `#include "`, then the header unchanged, then `"` and a newline |
| CodegenUtils.SystemInclude | generator/internal/codegen_utils.cc:43-45 | the line is `#include <`, then the header unchanged, then `>` and a newline |
| CodegenUtils.IncludeInjective | generator/internal/codegen_utils.cc:39-45 | different headers give different include lines of either kind |
| CodegenUtils.LocalIsNotSystem | generator/internal/codegen_utils.cc:39-45 | a local include line is never a system include line |
| CodegenUtils.PathComponents | generator/internal/codegen_utils.cc:79-80 | one component per dotted piece; all but the last unchanged; the last with a trailing `Service` consumed |
| CodegenUtils.SnakeAll | generator/internal/codegen_utils.cc:81-84 | component k of the result is the snake_case of component k |
| CodegenUtils.ServiceNameToFilePath | generator/internal/codegen_utils.cc:78-85 | for a name without `/`, splitting the path on `/` gives back exactly the snake-cased components, the last without its trailing `Service` |
| CodegenUtils.ServicePathSplits | generator/internal/codegen_utils.cc:78-85 | for a name without `/`, no snake-cased component holds a `/`, so joining them with `/` and splitting again gives them back |
| CodegenUtils.ServiceNameSegmentCount | generator/internal/codegen_utils.cc:78-85 | for a name without `/`, the path has one more segment than the name has dots |
| CodegenUtils.ServiceNameSegments | generator/internal/codegen_utils.cc:78-85 | for a name without `/`, segment k of the path is the snake_case of dotted component k; the last is taken after dropping `Service` |
| CodegenUtils.TrailingServiceIgnored | generator/internal/codegen_utils.cc:80 | `pkg.XService` and `pkg.X` map to the same file when `X` has no dot and does not end in `Service` |
| CodegenUtils.ServicePathWithSuffix | generator/internal/codegen_utils.cc:78-85 | the file of `pkg.XService` is the package directory, `/`, and the snake_case of `X` |
| CodegenUtils.ServicePathOfMember | generator/internal/codegen_utils.cc:78-85 | the file of `pkg.last` is the package directory, `/`, and the snake_case of `last` without `Service` |
| CodegenUtils.PackagePathOfComponent | generator/internal/codegen_utils.cc:78-85 | a package of one dot-free component has that component's snake_case as its directory |
| CodegenUtils.PackagePathOfMember | generator/internal/codegen_utils.cc:78-85 | one more package component adds its snake_case as one more directory |
| CodegenUtils.ServicePathOfMembers | generator/internal/codegen_utils.cc:78-85 | a service two components below a package: the package directory, the middle component in snake_case, then the file name; only the last component loses `Service` |
| CodegenUtils.ServicePathOfMembers3 | generator/internal/codegen_utils.cc:78-85 | the same, three components below the package |
| CodegenUtils.ProtoNameToCppName | generator/internal/codegen_utils.cc:87-89 | the result starts with `::`, has no `.`, and is two characters longer plus one per dot |
| CodegenUtils.CppNameComponents | generator/internal/codegen_utils.cc:87-89 | the C++ name is `::` followed by the dotted components joined by `::` |
| CodegenUtils.CppNameAppend | generator/internal/codegen_utils.cc:87-89 | the C++ name of `a.b` is the C++ name of `a` followed by the C++ name of `b` |
| CodegenUtils.CppNameOfMember | generator/internal/codegen_utils.cc:87-89 | `pkg.Name` with a dot-free `Name` becomes the C++ name of `pkg`, then `::Name` |
| CodegenUtils.ProductName | generator/internal/codegen_utils.cc:95-96 | the product name has no `/` |
| CodegenUtils.BuildNamespaces | generator/internal/codegen_utils.cc:91-102 | four names: `google`, `cloud`, the second-to-last `/`-piece of the product path (with `_internal` for the internal kind), and that piece upper-cased followed by `_CLIENT_NS` |
| CodegenUtils.InternalDiffersOnlyInProduct | generator/internal/codegen_utils.h:68-74 | the internal chain is the normal chain with `_internal` appended to its third name; omitting the kind means `NORMAL` |
| CodegenUtils.BuildNamespacesOfDirectory | generator/internal/codegen_utils.cc:91-102 | for a path `prefix/product/` with a `/`-free product, the chain is built from `product`, whatever the prefix |
| CodegenUtils.ProductNameOfDirectory | generator/internal/codegen_utils.cc:95-96 | for a path ending in `/`, the product is the last piece of the path without that `/` |
| CodegenUtils.FindKey | generator/internal/codegen_utils.cc:111-115 | the index of the first pair with the key, or the length when there is none; no earlier pair has the key |
| CodegenUtils.NormalizeProductPath | generator/internal/codegen_utils.cc:120-125 | the result ends in `/`, and it equals the input with one leading `/` dropped, up to a trailing `/` |
| CodegenUtils.NormalizeFixedPoint | generator/internal/codegen_utils.cc:120-125 | normalising leaves a path unchanged if and only if it has no leading `/` and already ends in `/` |
| CodegenUtils.NormalizeTwice | generator/internal/codegen_utils.cc:120-125 | normalising twice equals normalising once if and only if the path does not start with two slashes |
| CodegenUtils.ProcessCommandLineArgs | generator/internal/codegen_utils.cc:111-126 | an error if and only if no pair has the key `product_path`, and then it is `InvalidArgument` with the fixed message; otherwise the same pairs in the same order, with only the first `product_path` value normalised |
| CodegenUtils.NormalizedPathBuildsNamespaces | generator/internal/codegen_utils.cc:93-96 | a normalised product path meets what `BuildNamespaces` needs, and names the product after the path's last directory |
| CodegenUtilsExamples.LocalIncludeExample | generator/internal/codegen_utils_test.cc:27-30 | `google/cloud/status.h` gives `#include "google/cloud/status.h"` and a newline |
| CodegenUtilsExamples.SystemIncludeExample | generator/internal/codegen_utils_test.cc:32-34 | `vector` gives `#include <vector>` and a newline |
| CodegenUtilsExamples.SnakeCaseUpperCamelTrailingCapital | generator/internal/codegen_utils_test.cc:37 | `FooBarB` gives `foo_bar_b` |
| CodegenUtilsExamples.SnakeCaseUpperCamel | generator/internal/codegen_utils_test.cc:38 | `FooBarBaz` gives `foo_bar_baz` |
| CodegenUtilsExamples.SnakeCaseLowerCamel | generator/internal/codegen_utils_test.cc:39 | `fooBarBaz` gives `foo_bar_baz` |
| CodegenUtilsExamples.SnakeCaseLowerCamelShortLastWord | generator/internal/codegen_utils_test.cc:40 | `fooBarBa` gives `foo_bar_ba` |
| CodegenUtilsExamples.SnakeCaseTrailingCapitalRun | generator/internal/codegen_utils_test.cc:41 | `fooBarBAAAAA` gives `foo_bar_baaaaa` |
| CodegenUtilsExamples.SnakeCaseExistingUnderscore | generator/internal/codegen_utils_test.cc:42 | `foo_BarB` gives `foo_bar_b` |
| CodegenUtilsExamples.SnakeCaseDigit | generator/internal/codegen_utils_test.cc:43 | `v1` is unchanged |
| CodegenUtilsExamples.SnakeCaseEmpty | generator/internal/codegen_utils_test.cc:44 | the empty string is unchanged |
| CodegenUtilsExamples.SnakeCaseSpace | generator/internal/codegen_utils_test.cc:45 | a space is unchanged |
| CodegenUtilsExamples.SnakeCaseSingleCapital | generator/internal/codegen_utils_test.cc:46 | `A` gives `a` |
| CodegenUtilsExamples.SnakeCaseTwoLetters | generator/internal/codegen_utils_test.cc:47 | `aB` gives `a_b` |
| CodegenUtilsExamples.SnakeCaseDigits | generator/internal/codegen_utils_test.cc:48 | `Foo123` gives `foo123` |
| CodegenUtilsExamples.SnakeCaseLeadingAcronym | generator/internal/codegen_utils.cc:50-58 | `IAMPolicy` gives `iam_policy`: a run of capitals is one word, ended before the capital that starts the next word |
| CodegenUtilsExamples.SnakeCaseLongAcronym | generator/internal/codegen_utils.cc:50-58 | `HTTPSProxy` gives `https_proxy` |
| CodegenUtilsExamples.SnakeCaseAcronymBeforeWord | generator/internal/codegen_utils.cc:50-70 | `ABCDef` gives `abc_def`: a single `_`, before the capital that starts the last word, and none between the leading capitals |
| CodegenUtilsExamples.LibraryServicePath | generator/internal/codegen_utils.h:56 | `google.LibraryService` goes to `google/library` |
| CodegenUtilsExamples.TrailingServiceInLastComponent | generator/internal/codegen_utils_test.cc:51-55 | `google.spanner.admin.database.v1.DatabaseAdminService` goes to `google/spanner/admin/database/v1/database_admin` |
| CodegenUtilsExamples.NoTrailingServiceInLastComponent | generator/internal/codegen_utils_test.cc:57-61 | `google.spanner.admin.database.v1.DatabaseAdmin` goes to the same file |
| CodegenUtilsExamples.TrailingServiceInIntermediateComponent | generator/internal/codegen_utils_test.cc:63-68 | `google.spanner.admin.databaseService.v1.DatabaseAdminService` keeps `Service` on the inner component: `google/spanner/admin/database_service/v1/database_admin` |
| CodegenUtilsExamples.ProtoNameToCppNameExample | generator/internal/codegen_utils_test.cc:70-73 | `google.spanner.admin.database.v1.Request` becomes `::google::spanner::admin::database::v1::Request` |
| CodegenUtilsExamples.ProductOfPath | generator/internal/codegen_utils.cc:95-96 | `prefix/product/` names the product `product` |
| CodegenUtilsExamples.BuildNamespacesInternalExample | generator/internal/codegen_utils_test.cc:75-84 | any path ending in `/spanner/`, internal kind: `google`, `cloud`, `spanner_internal`, `SPANNER_CLIENT_NS` |
| CodegenUtilsExamples.BuildNamespacesNormalExample | generator/internal/codegen_utils_test.cc:86-95 | any path ending in `/translation/`, default kind: `google`, `cloud`, `translation`, `TRANSLATION_CLIENT_NS` |
| CodegenUtilsExamples.BuildNamespacesDoubleSlashExample | generator/internal/codegen_utils.cc:95-97 | a path ending in `//` names the empty product: `google`, `cloud`, ``, `_CLIENT_NS` |
| CodegenUtilsExamples.MissingProductPathExample | generator/internal/codegen_utils_test.cc:97-102 | no parameters give `InvalidArgument` with the message `--cpp_codegen_opt=product_path=<path> must be specified.` |
| CodegenUtilsExamples.ProductPathNeedsFormattingExample | generator/internal/codegen_utils_test.cc:104-108 | `/google/cloud/pubsub` becomes `google/cloud/pubsub/` |
| CodegenUtilsExamples.ProductPathAlreadyFormattedExample | generator/internal/codegen_utils_test.cc:110-114 | `google/cloud/pubsub/` stays as it is |
| CodegenUtilsExamples.FirstProductPathOnlyExample | generator/internal/codegen_utils.cc:111-126 | only the first `product_path` pair is normalised; the others pass through unchanged |
| CodegenUtilsExamples.NormalizeProductPathExamples | generator/internal/codegen_utils.cc:120-125 | `a//` stays `a//`, `//x` becomes `/x/`, `pubsub` becomes `pubsub/` |

## Left out

- Parsing the parameter string into key/value pairs is left out. `ProcessCommandLineArgs` starts from the parsed list, because the protobuf compiler's `ParseGeneratorParameter` is not part of this model.
- The diagnostic line that `ProcessCommandLineArgs` writes to standard error is left out; it is output only.
- Locales other than "C" and multi-byte encodings are left out. Characters are classified as ASCII only, as the C library does in the "C" locale.
- The status codes of `StatusOr` other than `InvalidArgument` are left out; no helper here returns another code.
- Strings.Split: models only the single-character delimiters the helpers use, not Abseil's general delimiters and predicates.
- CodegenUtils.BuildNamespaces: requires a `product_path` entry containing at least one `/`. Without one, the source dereferences an end iterator or steps before the start of the vector, and that behaviour is undefined.
- CodegenUtils.ProcessCommandLineArgs: requires the first `product_path` value to be neither empty nor `/`. The source reads `front()` of the value and `back()` of the value once a leading `/` is dropped, which is undefined on an empty string.

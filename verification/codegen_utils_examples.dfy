/**
 The expected values the generator helpers are held to, derived from the
 definitions. Where a helper only looks at the end of its argument (the
 product path), the example leaves the front symbolic (`prefix`), so that it
 covers every such argument.
 */
module CodegenUtilsExamples {
  import opened Ascii
  import opened Strings
  import opened Status
  import opened SnakeCase
  import opened CodegenUtils

  lemma LocalIncludeExample()
    ensures LocalInclude("google/cloud/status.h") == "#include \"google/cloud/status.h\"\n"
  {
  }

  lemma SystemIncludeExample()
    ensures SystemInclude("vector") == "#include <vector>\n"
  {
  }

  // CamelCaseToSnakeCase, one input at a time; each assertion is one step of
  // the scan, taken in chunks of four.

  lemma SnakePrefixOfUpperCamelTrailingCapital4(s: string)
    requires s == "FooBarB"
    ensures SnakePrefix(s, 4) == "foo_b"
  {
    assert SnakePrefix(s, 1) == "f";
    assert SnakePrefix(s, 2) == "fo";
    assert SnakePrefix(s, 3) == "foo_";
    assert SnakePrefix(s, 4) == "foo_b";
  }

  /** `FooBarB` in snake_case. */
  lemma SnakeCaseOfUpperCamelTrailingCapital(s: string)
    requires s == "FooBarB"
    ensures CamelCaseToSnakeCase(s) == "foo_bar_b"
  {
    SnakePrefixOfUpperCamelTrailingCapital4(s);
    assert SnakePrefix(s, 5) == "foo_ba";
    assert SnakePrefix(s, 6) == "foo_bar_";
    assert SnakePrefix(s, 7) == "foo_bar_b";
  }

  lemma SnakeCaseUpperCamelTrailingCapital()
    ensures CamelCaseToSnakeCase("FooBarB") == "foo_bar_b"
  {
    SnakeCaseOfUpperCamelTrailingCapital("FooBarB");
  }

  lemma SnakePrefixOfUpperCamel4(s: string)
    requires s == "FooBarBaz"
    ensures SnakePrefix(s, 4) == "foo_b"
  {
    assert SnakePrefix(s, 1) == "f";
    assert SnakePrefix(s, 2) == "fo";
    assert SnakePrefix(s, 3) == "foo_";
    assert SnakePrefix(s, 4) == "foo_b";
  }

  lemma SnakePrefixOfUpperCamel8(s: string)
    requires s == "FooBarBaz"
    ensures SnakePrefix(s, 8) == "foo_bar_ba"
  {
    SnakePrefixOfUpperCamel4(s);
    assert SnakePrefix(s, 5) == "foo_ba";
    assert SnakePrefix(s, 6) == "foo_bar_";
    assert SnakePrefix(s, 7) == "foo_bar_b";
    assert SnakePrefix(s, 8) == "foo_bar_ba";
  }

  /** `FooBarBaz` in snake_case. */
  lemma SnakeCaseOfUpperCamel(s: string)
    requires s == "FooBarBaz"
    ensures CamelCaseToSnakeCase(s) == "foo_bar_baz"
  {
    SnakePrefixOfUpperCamel8(s);
    assert SnakePrefix(s, 9) == "foo_bar_baz";
  }

  lemma SnakeCaseUpperCamel()
    ensures CamelCaseToSnakeCase("FooBarBaz") == "foo_bar_baz"
  {
    SnakeCaseOfUpperCamel("FooBarBaz");
  }

  lemma SnakePrefixOfLowerCamel4(s: string)
    requires s == "fooBarBaz"
    ensures SnakePrefix(s, 4) == "foo_b"
  {
    assert SnakePrefix(s, 1) == "f";
    assert SnakePrefix(s, 2) == "fo";
    assert SnakePrefix(s, 3) == "foo_";
    assert SnakePrefix(s, 4) == "foo_b";
  }

  lemma SnakePrefixOfLowerCamel8(s: string)
    requires s == "fooBarBaz"
    ensures SnakePrefix(s, 8) == "foo_bar_ba"
  {
    SnakePrefixOfLowerCamel4(s);
    assert SnakePrefix(s, 5) == "foo_ba";
    assert SnakePrefix(s, 6) == "foo_bar_";
    assert SnakePrefix(s, 7) == "foo_bar_b";
    assert SnakePrefix(s, 8) == "foo_bar_ba";
  }

  /** `fooBarBaz` in snake_case. */
  lemma SnakeCaseOfLowerCamel(s: string)
    requires s == "fooBarBaz"
    ensures CamelCaseToSnakeCase(s) == "foo_bar_baz"
  {
    SnakePrefixOfLowerCamel8(s);
    assert SnakePrefix(s, 9) == "foo_bar_baz";
  }

  lemma SnakeCaseLowerCamel()
    ensures CamelCaseToSnakeCase("fooBarBaz") == "foo_bar_baz"
  {
    SnakeCaseOfLowerCamel("fooBarBaz");
  }

  lemma SnakePrefixOfLowerCamelShortLastWord4(s: string)
    requires s == "fooBarBa"
    ensures SnakePrefix(s, 4) == "foo_b"
  {
    assert SnakePrefix(s, 1) == "f";
    assert SnakePrefix(s, 2) == "fo";
    assert SnakePrefix(s, 3) == "foo_";
    assert SnakePrefix(s, 4) == "foo_b";
  }

  /** `fooBarBa` in snake_case. */
  lemma SnakeCaseOfLowerCamelShortLastWord(s: string)
    requires s == "fooBarBa"
    ensures CamelCaseToSnakeCase(s) == "foo_bar_ba"
  {
    SnakePrefixOfLowerCamelShortLastWord4(s);
    assert SnakePrefix(s, 5) == "foo_ba";
    assert SnakePrefix(s, 6) == "foo_bar_";
    assert SnakePrefix(s, 7) == "foo_bar_b";
    assert SnakePrefix(s, 8) == "foo_bar_ba";
  }

  lemma SnakeCaseLowerCamelShortLastWord()
    ensures CamelCaseToSnakeCase("fooBarBa") == "foo_bar_ba"
  {
    SnakeCaseOfLowerCamelShortLastWord("fooBarBa");
  }

  lemma SnakePrefixOfTrailingCapitalRun4(s: string)
    requires s == "fooBarBAAAAA"
    ensures SnakePrefix(s, 4) == "foo_b"
  {
    assert SnakePrefix(s, 1) == "f";
    assert SnakePrefix(s, 2) == "fo";
    assert SnakePrefix(s, 3) == "foo_";
    assert SnakePrefix(s, 4) == "foo_b";
  }

  lemma SnakePrefixOfTrailingCapitalRun8(s: string)
    requires s == "fooBarBAAAAA"
    ensures SnakePrefix(s, 8) == "foo_bar_ba"
  {
    SnakePrefixOfTrailingCapitalRun4(s);
    assert SnakePrefix(s, 5) == "foo_ba";
    assert SnakePrefix(s, 6) == "foo_bar_";
    assert SnakePrefix(s, 7) == "foo_bar_b";
    assert SnakePrefix(s, 8) == "foo_bar_ba";
  }

  /** `fooBarBAAAAA` in snake_case. */
  lemma SnakeCaseOfTrailingCapitalRun(s: string)
    requires s == "fooBarBAAAAA"
    ensures CamelCaseToSnakeCase(s) == "foo_bar_baaaaa"
  {
    SnakePrefixOfTrailingCapitalRun8(s);
    assert SnakePrefix(s, 9) == "foo_bar_baa";
    assert SnakePrefix(s, 10) == "foo_bar_baaa";
    assert SnakePrefix(s, 11) == "foo_bar_baaaa";
    assert SnakePrefix(s, 12) == "foo_bar_baaaaa";
  }

  lemma SnakeCaseTrailingCapitalRun()
    ensures CamelCaseToSnakeCase("fooBarBAAAAA") == "foo_bar_baaaaa"
  {
    SnakeCaseOfTrailingCapitalRun("fooBarBAAAAA");
  }

  lemma SnakePrefixOfExistingUnderscore4(s: string)
    requires s == "foo_BarB"
    ensures SnakePrefix(s, 4) == "foo_"
  {
    assert SnakePrefix(s, 1) == "f";
    assert SnakePrefix(s, 2) == "fo";
    assert SnakePrefix(s, 3) == "foo";
    assert SnakePrefix(s, 4) == "foo_";
  }

  /** `foo_BarB` in snake_case. */
  lemma SnakeCaseOfExistingUnderscore(s: string)
    requires s == "foo_BarB"
    ensures CamelCaseToSnakeCase(s) == "foo_bar_b"
  {
    SnakePrefixOfExistingUnderscore4(s);
    assert SnakePrefix(s, 5) == "foo_b";
    assert SnakePrefix(s, 6) == "foo_ba";
    assert SnakePrefix(s, 7) == "foo_bar_";
    assert SnakePrefix(s, 8) == "foo_bar_b";
  }

  lemma SnakeCaseExistingUnderscore()
    ensures CamelCaseToSnakeCase("foo_BarB") == "foo_bar_b"
  {
    SnakeCaseOfExistingUnderscore("foo_BarB");
  }

  lemma SnakeCaseDigit()
    ensures CamelCaseToSnakeCase("v1") == "v1"
  {
    assert SnakePrefix("v1", 1) == "v";
    assert SnakePrefix("v1", 2) == "v1";
  }

  lemma SnakeCaseEmpty()
    ensures CamelCaseToSnakeCase("") == ""
  {

  }

  lemma SnakeCaseSpace()
    ensures CamelCaseToSnakeCase(" ") == " "
  {
    assert SnakePrefix(" ", 1) == " ";
  }

  lemma SnakeCaseSingleCapital()
    ensures CamelCaseToSnakeCase("A") == "a"
  {
    assert SnakePrefix("A", 1) == "a";
  }

  lemma SnakeCaseTwoLetters()
    ensures CamelCaseToSnakeCase("aB") == "a_b"
  {
    assert SnakePrefix("aB", 1) == "a_";
    assert SnakePrefix("aB", 2) == "a_b";
  }

  lemma SnakePrefixOfDigits4(s: string)
    requires s == "Foo123"
    ensures SnakePrefix(s, 4) == "foo1"
  {
    assert SnakePrefix(s, 1) == "f";
    assert SnakePrefix(s, 2) == "fo";
    assert SnakePrefix(s, 3) == "foo";
    assert SnakePrefix(s, 4) == "foo1";
  }

  /** `Foo123` in snake_case. */
  lemma SnakeCaseOfDigits(s: string)
    requires s == "Foo123"
    ensures CamelCaseToSnakeCase(s) == "foo123"
  {
    SnakePrefixOfDigits4(s);
    assert SnakePrefix(s, 5) == "foo12";
    assert SnakePrefix(s, 6) == "foo123";
  }

  lemma SnakeCaseDigits()
    ensures CamelCaseToSnakeCase("Foo123") == "foo123"
  {
    SnakeCaseOfDigits("Foo123");
  }

  // Runs of capitals: an acronym is one word, ended before the capital that starts the next.

  lemma SnakePrefixOfLeadingAcronym4(s: string)
    requires s == "IAMPolicy"
    ensures SnakePrefix(s, 4) == "iam_p"
  {
    assert SnakePrefix(s, 1) == "i";
    assert SnakePrefix(s, 2) == "ia";
    assert SnakePrefix(s, 3) == "iam_";
    assert SnakePrefix(s, 4) == "iam_p";
  }

  lemma SnakePrefixOfLeadingAcronym8(s: string)
    requires s == "IAMPolicy"
    ensures SnakePrefix(s, 8) == "iam_polic"
  {
    SnakePrefixOfLeadingAcronym4(s);
    assert SnakePrefix(s, 5) == "iam_po";
    assert SnakePrefix(s, 6) == "iam_pol";
    assert SnakePrefix(s, 7) == "iam_poli";
    assert SnakePrefix(s, 8) == "iam_polic";
  }

  /** `IAMPolicy` in snake_case. */
  lemma SnakeCaseOfLeadingAcronym(s: string)
    requires s == "IAMPolicy"
    ensures CamelCaseToSnakeCase(s) == "iam_policy"
  {
    SnakePrefixOfLeadingAcronym8(s);
    assert SnakePrefix(s, 9) == "iam_policy";
  }

  lemma SnakeCaseLeadingAcronym()
    ensures CamelCaseToSnakeCase("IAMPolicy") == "iam_policy"
  {
    SnakeCaseOfLeadingAcronym("IAMPolicy");
  }

  lemma SnakePrefixOfLongAcronym4(s: string)
    requires s == "HTTPSProxy"
    ensures SnakePrefix(s, 4) == "http"
  {
    assert SnakePrefix(s, 1) == "h";
    assert SnakePrefix(s, 2) == "ht";
    assert SnakePrefix(s, 3) == "htt";
    assert SnakePrefix(s, 4) == "http";
  }

  lemma SnakePrefixOfLongAcronym8(s: string)
    requires s == "HTTPSProxy"
    ensures SnakePrefix(s, 8) == "https_pro"
  {
    SnakePrefixOfLongAcronym4(s);
    assert SnakePrefix(s, 5) == "https_";
    assert SnakePrefix(s, 6) == "https_p";
    assert SnakePrefix(s, 7) == "https_pr";
    assert SnakePrefix(s, 8) == "https_pro";
  }

  /** `HTTPSProxy` in snake_case. */
  lemma SnakeCaseOfLongAcronym(s: string)
    requires s == "HTTPSProxy"
    ensures CamelCaseToSnakeCase(s) == "https_proxy"
  {
    SnakePrefixOfLongAcronym8(s);
    assert SnakePrefix(s, 9) == "https_prox";
    assert SnakePrefix(s, 10) == "https_proxy";
  }

  lemma SnakeCaseLongAcronym()
    ensures CamelCaseToSnakeCase("HTTPSProxy") == "https_proxy"
  {
    SnakeCaseOfLongAcronym("HTTPSProxy");
  }

  lemma SnakePrefixOfAcronymBeforeWord4(s: string)
    requires s == "ABCDef"
    ensures SnakePrefix(s, 4) == "abc_d"
  {
    assert SnakePrefix(s, 1) == "a";
    assert SnakePrefix(s, 2) == "ab";
    assert SnakePrefix(s, 3) == "abc_";
    assert SnakePrefix(s, 4) == "abc_d";
  }

  /** `ABCDef` in snake_case: one `_`, before the capital that starts the word. */
  lemma SnakeCaseOfAcronymBeforeWord(s: string)
    requires s == "ABCDef"
    ensures CamelCaseToSnakeCase(s) == "abc_def"
  {
    SnakePrefixOfAcronymBeforeWord4(s);
    assert SnakePrefix(s, 5) == "abc_de";
    assert SnakePrefix(s, 6) == "abc_def";
  }

  lemma SnakeCaseAcronymBeforeWord()
    ensures CamelCaseToSnakeCase("ABCDef") == "abc_def"
  {
    SnakeCaseOfAcronymBeforeWord("ABCDef");
  }

  // The components of the service names below, in chunks of four steps.

  lemma SnakePrefixOfDatabaseAdmin4(s: string)
    requires s == "DatabaseAdmin"
    ensures SnakePrefix(s, 4) == "data"
  {
    assert SnakePrefix(s, 1) == "d";
    assert SnakePrefix(s, 2) == "da";
    assert SnakePrefix(s, 3) == "dat";
    assert SnakePrefix(s, 4) == "data";
  }

  lemma SnakePrefixOfDatabaseAdmin8(s: string)
    requires s == "DatabaseAdmin"
    ensures SnakePrefix(s, 8) == "database_"
  {
    SnakePrefixOfDatabaseAdmin4(s);
    assert SnakePrefix(s, 5) == "datab";
    assert SnakePrefix(s, 6) == "databa";
    assert SnakePrefix(s, 7) == "databas";
    assert SnakePrefix(s, 8) == "database_";
  }

  lemma SnakePrefixOfDatabaseAdmin12(s: string)
    requires s == "DatabaseAdmin"
    ensures SnakePrefix(s, 12) == "database_admi"
  {
    SnakePrefixOfDatabaseAdmin8(s);
    assert SnakePrefix(s, 9) == "database_a";
    assert SnakePrefix(s, 10) == "database_ad";
    assert SnakePrefix(s, 11) == "database_adm";
    assert SnakePrefix(s, 12) == "database_admi";
  }

  /** `DatabaseAdmin` in snake_case. */
  lemma SnakeCaseOfDatabaseAdmin(s: string)
    requires s == "DatabaseAdmin"
    ensures CamelCaseToSnakeCase(s) == "database_admin"
  {
    SnakePrefixOfDatabaseAdmin12(s);
    assert SnakePrefix(s, 13) == "database_admin";
  }

  lemma SnakePrefixOfDatabaseService4(s: string)
    requires s == "databaseService"
    ensures SnakePrefix(s, 4) == "data"
  {
    assert SnakePrefix(s, 1) == "d";
    assert SnakePrefix(s, 2) == "da";
    assert SnakePrefix(s, 3) == "dat";
    assert SnakePrefix(s, 4) == "data";
  }

  lemma SnakePrefixOfDatabaseService8(s: string)
    requires s == "databaseService"
    ensures SnakePrefix(s, 8) == "database_"
  {
    SnakePrefixOfDatabaseService4(s);
    assert SnakePrefix(s, 5) == "datab";
    assert SnakePrefix(s, 6) == "databa";
    assert SnakePrefix(s, 7) == "databas";
    assert SnakePrefix(s, 8) == "database_";
  }

  lemma SnakePrefixOfDatabaseService12(s: string)
    requires s == "databaseService"
    ensures SnakePrefix(s, 12) == "database_serv"
  {
    SnakePrefixOfDatabaseService8(s);
    assert SnakePrefix(s, 9) == "database_s";
    assert SnakePrefix(s, 10) == "database_se";
    assert SnakePrefix(s, 11) == "database_ser";
    assert SnakePrefix(s, 12) == "database_serv";
  }

  /** `databaseService` in snake_case. */
  lemma SnakeCaseOfDatabaseService(s: string)
    requires s == "databaseService"
    ensures CamelCaseToSnakeCase(s) == "database_service"
  {
    SnakePrefixOfDatabaseService12(s);
    assert SnakePrefix(s, 13) == "database_servi";
    assert SnakePrefix(s, 14) == "database_servic";
    assert SnakePrefix(s, 15) == "database_service";
  }

  lemma SnakePrefixOfLibrary4(s: string)
    requires s == "Library"
    ensures SnakePrefix(s, 4) == "libr"
  {
    assert SnakePrefix(s, 1) == "l";
    assert SnakePrefix(s, 2) == "li";
    assert SnakePrefix(s, 3) == "lib";
    assert SnakePrefix(s, 4) == "libr";
  }

  /** `Library` in snake_case. */
  lemma SnakeCaseOfLibrary(s: string)
    requires s == "Library"
    ensures CamelCaseToSnakeCase(s) == "library"
  {
    SnakePrefixOfLibrary4(s);
    assert SnakePrefix(s, 5) == "libra";
    assert SnakePrefix(s, 6) == "librar";
    assert SnakePrefix(s, 7) == "library";
  }

  // The test names, built one dotted component at a time. Each level has a
  // lemma that glues the literal pieces together, kept apart from the
  // functions so that none of them is unfolded on a literal argument, and a
  // lemma that derives the package directory and the C++ name of the level
  // from those of the level above.

  /** The lower-case words of the test names: no dot and no upper-case letter. */
  lemma LowerWord(comp: string)
    requires comp == "google" || comp == "spanner" || comp == "admin" || comp == "database" || comp == "v1"
    ensures '.' !in comp && NoUpper(comp)
  {
  }

  /** A component without upper-case letters is its own directory name. */
  lemma LowerMember(pkg: string, dir: string, comp: string)
    requires '.' !in comp && NoUpper(comp)
    requires PackagePath(pkg) == dir
    ensures PackagePath(pkg + "." + comp) == dir + "/" + comp
  {
    PackagePathOfMember(pkg, comp);
    FixedPointIffNoUpper(comp);
  }

  lemma GoogleGlue(name: string)
    requires name == "google"
    ensures "::" + name == "::google"
  {
  }

  lemma GoogleNames(name: string)
    requires name == "google"
    ensures PackagePath(name) == "google"
    ensures ProtoNameToCppName(name) == "::google"
  {
    LowerWord(name);
    PackagePathOfComponent(name);
    FixedPointIffNoUpper(name);
    ReplaceAllNoDelimiter(name, '.', "::");
    GoogleGlue(name);
  }

  lemma SpannerGlue(outer: string, comp: string, name: string)
    requires outer == "google" && comp == "spanner" && name == "google.spanner"
    ensures outer + "." + comp == name
    ensures "google" + "/" + comp == "google/spanner"
    ensures "::google" + "::" + comp == "::google::spanner"
  {
  }

  lemma SpannerNames(name: string)
    requires name == "google.spanner"
    ensures PackagePath(name) == "google/spanner"
    ensures ProtoNameToCppName(name) == "::google::spanner"
  {
    var outer: string :| outer == "google";
    var comp := "spanner";
    LowerWord(comp);
    GoogleNames(outer);
    LowerMember(outer, "google", comp);
    CppNameOfMember(outer, comp);
    SpannerGlue(outer, comp, name);
  }

  lemma AdminGlue(outer: string, comp: string, name: string)
    requires outer == "google.spanner" && comp == "admin" && name == "google.spanner.admin"
    ensures outer + "." + comp == name
    ensures "google/spanner" + "/" + comp == "google/spanner/admin"
    ensures "::google::spanner" + "::" + comp == "::google::spanner::admin"
  {
  }

  lemma AdminNames(name: string)
    requires name == "google.spanner.admin"
    ensures PackagePath(name) == "google/spanner/admin"
    ensures ProtoNameToCppName(name) == "::google::spanner::admin"
  {
    var outer: string :| outer == "google.spanner";
    var comp := "admin";
    LowerWord(comp);
    SpannerNames(outer);
    LowerMember(outer, "google/spanner", comp);
    CppNameOfMember(outer, comp);
    AdminGlue(outer, comp, name);
  }

  lemma DatabaseGlue(outer: string, comp: string, name: string)
    requires outer == "google.spanner.admin" && comp == "database" && name == "google.spanner.admin.database"
    ensures outer + "." + comp == name
    ensures "google/spanner/admin" + "/" + comp == "google/spanner/admin/database"
    ensures "::google::spanner::admin" + "::" + comp == "::google::spanner::admin::database"
  {
  }

  lemma DatabaseNames(name: string)
    requires name == "google.spanner.admin.database"
    ensures PackagePath(name) == "google/spanner/admin/database"
    ensures ProtoNameToCppName(name) == "::google::spanner::admin::database"
  {
    var outer: string :| outer == "google.spanner.admin";
    var comp := "database";
    LowerWord(comp);
    AdminNames(outer);
    LowerMember(outer, "google/spanner/admin", comp);
    CppNameOfMember(outer, comp);
    DatabaseGlue(outer, comp, name);
  }

  lemma DatabaseV1Glue(outer: string, comp: string, name: string)
    requires outer == "google.spanner.admin.database" && comp == "v1" && name == "google.spanner.admin.database.v1"
    ensures outer + "." + comp == name
    ensures "google/spanner/admin/database" + "/" + comp == "google/spanner/admin/database/v1"
    ensures "::google::spanner::admin::database" + "::" + comp == "::google::spanner::admin::database::v1"
  {
  }

  lemma DatabaseV1Names(name: string)
    requires name == "google.spanner.admin.database.v1"
    ensures PackagePath(name) == "google/spanner/admin/database/v1"
    ensures ProtoNameToCppName(name) == "::google::spanner::admin::database::v1"
  {
    var outer: string :| outer == "google.spanner.admin.database";
    var comp := "v1";
    LowerWord(comp);
    DatabaseNames(outer);
    LowerMember(outer, "google/spanner/admin/database", comp);
    CppNameOfMember(outer, comp);
    DatabaseV1Glue(outer, comp, name);
  }

  lemma DatabaseServiceGlue(outer: string, comp: string, name: string)
    requires outer == "google.spanner.admin" && comp == "databaseService" && name == "google.spanner.admin.databaseService"
    ensures '.' !in comp
    ensures outer + "." + comp == name
    ensures "google/spanner/admin" + "/" + "database_service" == "google/spanner/admin/database_service"
  {
  }

  lemma DatabaseServicePackage(name: string)
    requires name == "google.spanner.admin.databaseService"
    ensures PackagePath(name) == "google/spanner/admin/database_service"
  {
    var outer: string :| outer == "google.spanner.admin";
    var comp := "databaseService";
    DatabaseServiceGlue(outer, comp, name);
    AdminNames(outer);
    PackagePathOfMember(outer, comp);
    SnakeCaseOfDatabaseService(comp);
  }

  lemma DatabaseServiceV1Glue(outer: string, comp: string, name: string)
    requires outer == "google.spanner.admin.databaseService" && comp == "v1" && name == "google.spanner.admin.databaseService.v1"
    ensures outer + "." + comp == name
    ensures "google/spanner/admin/database_service" + "/" + comp == "google/spanner/admin/database_service/v1"
  {
  }

  lemma DatabaseServiceV1Package(name: string)
    requires name == "google.spanner.admin.databaseService.v1"
    ensures PackagePath(name) == "google/spanner/admin/database_service/v1"
  {
    var outer: string :| outer == "google.spanner.admin.databaseService";
    var comp := "v1";
    LowerWord(comp);
    DatabaseServicePackage(outer);
    LowerMember(outer, "google/spanner/admin/database_service", comp);
    DatabaseServiceV1Glue(outer, comp, name);
  }

  /** The trailing `Service` of the last test component. */
  lemma ConsumeServiceSuffix(last: string, name: string)
    requires last == "DatabaseAdminService" && name == "DatabaseAdmin"
    ensures '.' !in last
    ensures ConsumeSuffix(last, ServiceSuffix) == name
  {
  }

  lemma LibraryGlue(pkg: string, last: string, name: string)
    requires pkg == "google" && last == "Library" && name == "google.LibraryService"
    ensures '.' !in last
    ensures pkg + "." + last + ServiceSuffix == name
    ensures "google" + "/" + "library" == "google/library"
  {
  }

  /** The example of the header: `google.LibraryService` goes to `google/library`. */
  lemma LibraryServicePath(name: string)
    requires name == "google.LibraryService"
    ensures ServiceNameToFilePath(name) == "google/library"
  {
    var pkg, last := "google", "Library";
    LibraryGlue(pkg, last, name);
    ServicePathWithSuffix(pkg, last);
    GoogleNames(pkg);
    SnakeCaseOfLibrary(last);
  }

  lemma DatabaseAdminFileGlue()
    ensures "google/spanner/admin/database/v1" + "/" + "database_admin" == "google/spanner/admin/database/v1/database_admin"
  {
  }

  lemma TrailingServiceGlue(pkg: string, last: string, name: string)
    requires pkg == "google.spanner.admin.database.v1" && last == "DatabaseAdminService"
    requires name == "google.spanner.admin.database.v1.DatabaseAdminService"
    ensures pkg + "." + last == name
  {
  }

  /** A trailing `Service` on the last component is dropped. */
  lemma TrailingServiceInLastComponent(name: string)
    requires name == "google.spanner.admin.database.v1.DatabaseAdminService"
    ensures ServiceNameToFilePath(name) == "google/spanner/admin/database/v1/database_admin"
  {
    var pkg, last, base := "google.spanner.admin.database.v1", "DatabaseAdminService", "DatabaseAdmin";
    TrailingServiceGlue(pkg, last, name);
    DatabaseAdminFileGlue();
    ConsumeServiceSuffix(last, base);
    ServicePathOfMember(pkg, last);
    DatabaseV1Names(pkg);
    SnakeCaseOfDatabaseAdmin(base);
  }

  lemma NoTrailingServiceGlue(pkg: string, last: string, name: string)
    requires pkg == "google.spanner.admin.database.v1" && last == "DatabaseAdmin"
    requires name == "google.spanner.admin.database.v1.DatabaseAdmin"
    ensures '.' !in last && !HasSuffix(last, ServiceSuffix)
    ensures pkg + "." + last == name
  {
  }

  /** Without a trailing `Service` the last component is kept whole. */
  lemma NoTrailingServiceInLastComponent(name: string)
    requires name == "google.spanner.admin.database.v1.DatabaseAdmin"
    ensures ServiceNameToFilePath(name) == "google/spanner/admin/database/v1/database_admin"
  {
    var pkg, last := "google.spanner.admin.database.v1", "DatabaseAdmin";
    NoTrailingServiceGlue(pkg, last, name);
    DatabaseAdminFileGlue();
    ServicePathOfMember(pkg, last);
    DatabaseV1Names(pkg);
    SnakeCaseOfDatabaseAdmin(last);
  }

  lemma IntermediateServiceGlue(pkg: string, last: string, name: string)
    requires pkg == "google.spanner.admin.databaseService.v1" && last == "DatabaseAdminService"
    requires name == "google.spanner.admin.databaseService.v1.DatabaseAdminService"
    ensures pkg + "." + last == name
  {
  }

  lemma InnerDatabaseAdminFileGlue()
    ensures "google/spanner/admin/database_service/v1" + "/" + "database_admin"
            == "google/spanner/admin/database_service/v1/database_admin"
  {
  }

  /** A `Service` at the end of an inner component is kept. */
  lemma TrailingServiceInIntermediateComponent(name: string)
    requires name == "google.spanner.admin.databaseService.v1.DatabaseAdminService"
    ensures ServiceNameToFilePath(name) == "google/spanner/admin/database_service/v1/database_admin"
  {
    var pkg, last, base := "google.spanner.admin.databaseService.v1", "DatabaseAdminService", "DatabaseAdmin";
    IntermediateServiceGlue(pkg, last, name);
    InnerDatabaseAdminFileGlue();
    ConsumeServiceSuffix(last, base);
    ServicePathOfMember(pkg, last);
    DatabaseServiceV1Package(pkg);
    SnakeCaseOfDatabaseAdmin(base);
  }

  lemma RequestGlue(pkg: string, last: string, name: string)
    requires pkg == "google.spanner.admin.database.v1" && last == "Request"
    requires name == "google.spanner.admin.database.v1.Request"
    ensures '.' !in last
    ensures pkg + "." + last == name
    ensures "::google::spanner::admin::database::v1" + "::" + last == "::google::spanner::admin::database::v1::Request"
  {
  }

  /** The C++ name of a request message. */
  lemma ProtoNameToCppNameExample(name: string)
    requires name == "google.spanner.admin.database.v1.Request"
    ensures ProtoNameToCppName(name) == "::google::spanner::admin::database::v1::Request"
  {
    var pkg, last := "google.spanner.admin.database.v1", "Request";
    RequestGlue(pkg, last, name);
    DatabaseV1Names(pkg);
    CppNameOfMember(pkg, last);
  }

  /** `prefix/product/` names the product `product`. */
  lemma ProductOfPath(prefix: string, product: string)
    requires '/' !in product
    ensures '/' in prefix + "/" + product + "/"
    ensures ProductName(prefix + "/" + product + "/") == product
  {
    var p := prefix + "/" + product + "/";
    BuildNamespacesOfDirectory(map[ProductPathKey := p], Normal, prefix, product);
  }

  lemma SpannerProductGlue(prefix: string, product: string)
    requires product == "spanner"
    ensures prefix + "/" + product + "/" == prefix + "/spanner/"
    ensures product + "_internal" == "spanner_internal"
    ensures Ascii.StrToUpper(product) + "_CLIENT_NS" == "SPANNER_CLIENT_NS"
  {
    assert Ascii.StrToUpper(product) == "SPANNER";
  }

  lemma BuildNamespacesInternalExample(prefix: string)
    ensures BuildNamespaces(map[ProductPathKey := prefix + "/spanner/"], Internal)
            == ["google", "cloud", "spanner_internal", "SPANNER_CLIENT_NS"]
  {
    var product := "spanner";
    SpannerProductGlue(prefix, product);
    ProductOfPath(prefix, product);
  }

  lemma TranslationProductGlue(prefix: string, product: string)
    requires product == "translation"
    ensures prefix + "/" + product + "/" == prefix + "/translation/"
    ensures Ascii.StrToUpper(product) + "_CLIENT_NS" == "TRANSLATION_CLIENT_NS"
  {
    assert Ascii.StrToUpper(product) == "TRANSLATION";
  }

  lemma BuildNamespacesNormalExample(prefix: string)
    ensures BuildNamespaces(map[ProductPathKey := prefix + "/translation/"])
            == ["google", "cloud", "translation", "TRANSLATION_CLIENT_NS"]
  {
    var product := "translation";
    TranslationProductGlue(prefix, product);
    ProductOfPath(prefix, product);
  }

  lemma EmptyProductGlue(prefix: string, product: string)
    requires product == ""
    ensures prefix + "/" + product + "/" == prefix + "//"
    ensures Ascii.StrToUpper(product) + "_CLIENT_NS" == "_CLIENT_NS"
  {
    assert Ascii.StrToUpper(product) == "";
  }

  /**
   The product name is the second-to-last piece of the path: a path ending
   in two slashes names an empty product.
   */
  lemma BuildNamespacesDoubleSlashExample(prefix: string)
    ensures BuildNamespaces(map[ProductPathKey := prefix + "//"]) == ["google", "cloud", "", "_CLIENT_NS"]
  {
    var product := "";
    EmptyProductGlue(prefix, product);
    ProductOfPath(prefix, product);
  }

  lemma MissingProductPathExample()
    ensures ProcessCommandLineArgs([]) == Err(InvalidArgument, "--cpp_codegen_opt=product_path=<path> must be specified.")
  {
  }

  lemma ProductPathNeedsFormattingExample()
    ensures ProcessCommandLineArgs([("product_path", "/google/cloud/pubsub")])
            == Ok([("product_path", "google/cloud/pubsub/")])
  {
    var args := [("product_path", "/google/cloud/pubsub")];
    assert FindKey(args, ProductPathKey) == 0;
    var v := NormalizeProductPath("/google/cloud/pubsub");
    assert v == "google/cloud/pubsub/";
    var r := ProcessCommandLineArgs(args);
    assert r.value == [(ProductPathKey, v)];
  }

  lemma ProductPathAlreadyFormattedExample()
    ensures ProcessCommandLineArgs([("product_path", "google/cloud/pubsub/")])
            == Ok([("product_path", "google/cloud/pubsub/")])
  {
    var args := [("product_path", "google/cloud/pubsub/")];
    assert FindKey(args, ProductPathKey) == 0;
    var v := NormalizeProductPath("google/cloud/pubsub/");
    assert v == "google/cloud/pubsub/";
    var r := ProcessCommandLineArgs(args);
    assert r.value == [(ProductPathKey, v)];
  }

  /** Only the first `product_path` pair is normalised; the rest pass through. */
  lemma FirstProductPathOnlyExample()
    ensures ProcessCommandLineArgs([("x", "1"), ("product_path", "/p"), ("product_path", "/q")])
            == Ok([("x", "1"), ("product_path", "p/"), ("product_path", "/q")])
  {
    var args := [("x", "1"), ("product_path", "/p"), ("product_path", "/q")];
    assert FindKey(args, ProductPathKey) == 1 by {
      assert args[1..] == [("product_path", "/p"), ("product_path", "/q")];
      assert FindKey(args[1..], ProductPathKey) == 0;
    }
    var v := NormalizeProductPath("/p");
    assert v == "p/";
    var r := ProcessCommandLineArgs(args);
    assert r.value == [args[0], (ProductPathKey, v), args[2]];
  }

  /** Repeated slashes stay, and only one leading slash is dropped. */
  lemma NormalizeProductPathExamples()
    ensures NormalizeProductPath("a//") == "a//"
    ensures NormalizeProductPath("//x") == "/x/"
    ensures NormalizeProductPath("pubsub") == "pubsub/"
  {
  }
}

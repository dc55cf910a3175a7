/**
 The naming and derivation helpers of the code generator: the generated file
 suffix, include directives, the file path of a service, the C++ name of a
 protobuf name, the namespace chain of a product, and the validation of the
 generator's command-line parameters.
 */
module CodegenUtils {
  import opened Ascii
  import opened Strings
  import opened Status
  import opened SnakeCase

  /** Suffix of every generated file, naming the plugin that wrote it. */
  function GeneratedFileSuffix(): (r: string)
    ensures r == ".gcpcxx.pb"
  {
    ".gcpcxx.pb"
  }

  /** The complete include line for a header of this project, in quotes. */
  function LocalInclude(header: string): (r: string)
    ensures |r| == |header| + 12
    ensures r[..10] == "#include \""
    ensures r[10..|r| - 2] == header
    ensures r[|r| - 2..] == "\"\n"
  {
    "#include \"" + header + "\"\n"
  }

  /** The complete include line for a system header, in angle brackets. */
  function SystemInclude(header: string): (r: string)
    ensures |r| == |header| + 12
    ensures r[..10] == "#include <"
    ensures r[10..|r| - 2] == header
    ensures r[|r| - 2..] == ">\n"
  {
    "#include <" + header + ">\n"
  }

  /** Different headers give different include lines, of either kind. */
  lemma IncludeInjective(a: string, b: string)
    ensures LocalInclude(a) == LocalInclude(b) ==> a == b
    ensures SystemInclude(a) == SystemInclude(b) ==> a == b
  {

  }

  /** A local include line is never a system include line. */
  lemma LocalIsNotSystem(a: string, b: string)
    ensures LocalInclude(a) != SystemInclude(b)
  {

  }

  /** The service-name suffix dropped from the last component of a path. */
  const ServiceSuffix := "Service"

  /** The components of a dotted service name, `Service` dropped from the last one. */
  function PathComponents(serviceName: string): (comps: seq<string>)
    ensures |comps| == |Split(serviceName, '.')|
    ensures forall k :: 0 <= k < |comps| - 1 ==> comps[k] == Split(serviceName, '.')[k]
    ensures comps[|comps| - 1] == ConsumeSuffix(Split(serviceName, '.')[|comps| - 1], ServiceSuffix)
  {
    var parts := Split(serviceName, '.');
    parts[|parts| - 1 := ConsumeSuffix(parts[|parts| - 1], ServiceSuffix)]
  }

  /** Snake-cases every component. */
  function SnakeAll(comps: seq<string>): (r: seq<string>)
    ensures |r| == |comps|
    ensures forall k :: 0 <= k < |comps| ==> r[k] == CamelCaseToSnakeCase(comps[k])
  {
    if |comps| == 0 then [] else [CamelCaseToSnakeCase(comps[0])] + SnakeAll(comps[1..])
  }

  /**
   The file path of a service: its dotted components, `Service` dropped from
   the last one, each converted to snake_case, joined with `/`.
   */
  function ServiceNameToFilePath(serviceName: string): (r: string)
    ensures '/' !in serviceName ==> Split(r, '/') == SnakeAll(PathComponents(serviceName))
  {
    if '/' in serviceName then Join(SnakeAll(PathComponents(serviceName)), "/")
    else
      ServicePathSplits(serviceName);
      Join(SnakeAll(PathComponents(serviceName)), "/")
  }

  /**
   For a service name without `/`, splitting the joined snake-cased
   components on `/` gives them back: no component can contribute a `/` of
   its own.
   */
  lemma ServicePathSplits(serviceName: string)
    requires '/' !in serviceName
    ensures Split(Join(SnakeAll(PathComponents(serviceName)), "/"), '/') == SnakeAll(PathComponents(serviceName))
  {
    var comps := PathComponents(serviceName);
    var segs := SnakeAll(comps);
    SplitPiecesLackAbsent(serviceName, '.', '/');
    forall k | 0 <= k < |segs|
      ensures '/' !in segs[k]
    {
      assert '/' !in comps[k];
      KeepsAbsentCharacters(comps[k], '/');
    }
    SplitJoin(segs, '/');
  }

  /** For a service name without `/`, the path has one segment per dot-separated component. */
  lemma ServiceNameSegmentCount(serviceName: string)
    requires '/' !in serviceName
    ensures |Split(ServiceNameToFilePath(serviceName), '/')| == Count(serviceName, '.') + 1
  {
    SplitLength(serviceName, '.');
  }

  /**
   For a service name without `/`, segment k of the path is the snake_case of
   component k, except that the last component loses a trailing `Service`
   first (and nothing when it has none).
   */
  lemma ServiceNameSegments(serviceName: string)
    requires '/' !in serviceName
    ensures var segs := Split(ServiceNameToFilePath(serviceName), '/');
            var comps := Split(serviceName, '.');
            && |segs| == |comps|
            && (forall k :: 0 <= k < |comps| - 1 ==> segs[k] == CamelCaseToSnakeCase(comps[k]))
            && segs[|segs| - 1] == CamelCaseToSnakeCase(ConsumeSuffix(comps[|comps| - 1], ServiceSuffix))
  {
    var parts := Split(serviceName, '.');
    var comps := PathComponents(serviceName);
    var segs := SnakeAll(comps);
    var path := ServiceNameToFilePath(serviceName);
    assert Split(path, '/') == segs;
    forall k | 0 <= k < |parts| - 1
      ensures segs[k] == CamelCaseToSnakeCase(parts[k])
    {
      assert comps[k] == parts[k];
    }
    assert segs[|segs| - 1] == CamelCaseToSnakeCase(comps[|comps| - 1]);
  }

  /**
   A trailing `Service` on the last component does not change the path: the
   names `pkg.X` and `pkg.XService` map to the same file when `X` does not
   itself end in `Service`.
   */
  lemma TrailingServiceIgnored(pkg: string, last: string)
    requires '.' !in last
    requires !HasSuffix(last, ServiceSuffix)
    ensures ServiceNameToFilePath(pkg + "." + last + ServiceSuffix) == ServiceNameToFilePath(pkg + "." + last)
  {
    ServicePathWithSuffix(pkg, last);
    ServicePathOfMember(pkg, last);
  }

  lemma ServicePathWithSuffix(pkg: string, last: string)
    requires '.' !in last
    ensures ServiceNameToFilePath(pkg + "." + last + ServiceSuffix) == PackagePath(pkg) + "/" + CamelCaseToSnakeCase(last)
  {
    var full := last + ServiceSuffix;
    assert '.' !in full by {
      assert '.' !in ServiceSuffix;
    }
    assert pkg + "." + full == pkg + "." + last + ServiceSuffix;
    ConsumeAppendedSuffix(last, ServiceSuffix);
    ServicePathOfMember(pkg, full);
  }

  /** The components of `pkg.last` are those of `pkg`, then `last` without `Service`. */
  lemma PathComponentsOfLast(pkg: string, last: string)
    requires '.' !in last
    ensures PathComponents(pkg + "." + last) == Split(pkg, '.') + [ConsumeSuffix(last, ServiceSuffix)]
  {
    SplitTrailingPiece(pkg, '.', last);
    assert pkg + "." + last == pkg + ['.'] + last;
  }

  /** The directory a package's services go to: every component snake-cased, joined with `/`. */
  function PackagePath(pkg: string): string {
    Join(SnakeAll(Split(pkg, '.')), "/")
  }

  /** A package of one component has that component's snake_case as its directory. */
  lemma PackagePathOfComponent(comp: string)
    requires '.' !in comp
    ensures PackagePath(comp) == CamelCaseToSnakeCase(comp)
  {
    SplitNoDelimiter(comp, '.');
  }

  /** Snake-casing a list with one more component appends that component's snake_case. */
  lemma SnakeAllSnoc(comps: seq<string>, c: string)
    ensures SnakeAll(comps + [c]) == SnakeAll(comps) + [CamelCaseToSnakeCase(c)]
  {

  }

  /**
   The file of service `last` in package `pkg` is the package's directory
   followed by the snake_case of `last` without a trailing `Service`.
   */
  lemma ServicePathOfMember(pkg: string, last: string)
    requires '.' !in last
    ensures ServiceNameToFilePath(pkg + "." + last)
            == PackagePath(pkg) + "/" + CamelCaseToSnakeCase(ConsumeSuffix(last, ServiceSuffix))
  {
    var parts := Split(pkg, '.');
    var c := ConsumeSuffix(last, ServiceSuffix);
    PathComponentsOfLast(pkg, last);
    SnakeAllSnoc(parts, c);
    JoinSnoc(SnakeAll(parts), CamelCaseToSnakeCase(c), "/");
  }

  /** A package one component deeper has that component's snake_case as one more directory. */
  lemma PackagePathOfMember(pkg: string, comp: string)
    requires '.' !in comp
    ensures PackagePath(pkg + "." + comp) == PackagePath(pkg) + "/" + CamelCaseToSnakeCase(comp)
  {
    var parts := Split(pkg, '.');
    assert Split(pkg + "." + comp, '.') == parts + [comp] by {
      SplitTrailingPiece(pkg, '.', comp);
      assert pkg + "." + comp == pkg + ['.'] + comp;
    }
    SnakeAllSnoc(parts, comp);
    JoinSnoc(SnakeAll(parts), CamelCaseToSnakeCase(comp), "/");
  }

  /**
   A service two components below a package: the package's directory, the
   middle component's snake_case, then the service's file name.
   */
  lemma ServicePathOfMembers(name: string, pkg: string, mid: string, last: string)
    requires '.' !in mid && '.' !in last
    requires name == pkg + "." + mid + "." + last
    ensures ServiceNameToFilePath(name)
            == PackagePath(pkg) + "/" + CamelCaseToSnakeCase(mid) + "/"
               + CamelCaseToSnakeCase(ConsumeSuffix(last, ServiceSuffix))
  {
    ServicePathOfMember(pkg + "." + mid, last);
    PackagePathOfMember(pkg, mid);
  }

  /** The same, three components below the package. */
  lemma ServicePathOfMembers3(name: string, pkg: string, outer: string, mid: string, last: string)
    requires '.' !in outer && '.' !in mid && '.' !in last
    requires name == pkg + "." + outer + "." + mid + "." + last
    ensures ServiceNameToFilePath(name)
            == PackagePath(pkg) + "/" + CamelCaseToSnakeCase(outer) + "/" + CamelCaseToSnakeCase(mid) + "/"
               + CamelCaseToSnakeCase(ConsumeSuffix(last, ServiceSuffix))
  {
    ServicePathOfMembers(name, pkg + "." + outer, mid, last);
    PackagePathOfMember(pkg, outer);
  }

  /** The fully qualified C++ name of a dotted protobuf name. */
  function ProtoNameToCppName(protoName: string): (r: string)
    ensures |r| >= 2 && r[..2] == "::"
    ensures '.' !in r
    ensures |r| == |protoName| + 2 + Count(protoName, '.')
  {
    "::" + ReplaceAll(protoName, '.', "::")
  }

  /**
   The C++ name is the protobuf name's dotted components joined by `::`,
   with `::` in front.
   */
  lemma CppNameComponents(protoName: string)
    ensures ProtoNameToCppName(protoName) == "::" + Join(Split(protoName, '.'), "::")
  {
    ReplaceAllIsJoinSplit(protoName, '.', "::");
  }

  /**
   The C++ name of `a.b` is the C++ name of `a` followed by `::` and the
   C++ name of `b` without its leading `::`.
   */
  lemma CppNameAppend(a: string, b: string)
    ensures ProtoNameToCppName(a + "." + b) == ProtoNameToCppName(a) + ProtoNameToCppName(b)
  {
    var ra, rb := ReplaceAll(a, '.', "::"), ReplaceAll(b, '.', "::");
    assert ReplaceAll(a + "." + b, '.', "::") == ra + "::" + rb by {
      ReplaceAllAround(a, '.', b, "::");
      assert a + "." + b == a + ['.'] + b;
    }
    assert "::" + (ra + "::" + rb) == ("::" + ra) + ("::" + rb);
  }

  /** A simple name nested in a package: `pkg.Name` becomes `<C++ name of pkg>::Name`. */
  lemma CppNameOfMember(pkg: string, name: string)
    requires '.' !in name
    ensures ProtoNameToCppName(pkg + "." + name) == ProtoNameToCppName(pkg) + "::" + name
  {
    CppNameAppend(pkg, name);
    ReplaceAllNoDelimiter(name, '.', "::");
  }

  /** Whether a namespace chain is for the public API or for implementation details. */
  datatype NamespaceType = Normal | Internal

  /** The generator parameter naming the product's directory. */
  const ProductPathKey := "product_path"

  /** The piece of a product path the namespaces are named after. */
  function ProductName(productPath: string): (name: string)
    requires '/' in productPath
    ensures '/' !in name
  {
    var parts := Split(productPath, '/');
    parts[|parts| - 2]
  }

  /**
   The namespace chain of the product named by `vars["product_path"]`:
   `google`, `cloud`, the product name (with `_internal` for the internal
   chain) and the upper-cased product name followed by `_CLIENT_NS`. The
   product name is the second-to-last piece of the path split on `/`.
   */
  function BuildNamespaces(vars: map<string, string>, nsType: NamespaceType := Normal): (r: seq<string>)
    requires ProductPathKey in vars
    requires '/' in vars[ProductPathKey]
    ensures |r| == 4
    ensures r[0] == "google" && r[1] == "cloud"
    ensures var parts := Split(vars[ProductPathKey], '/');
            && |parts| >= 2
            && r[2] == parts[|parts| - 2] + (if nsType == Internal then "_internal" else "")
            && r[3] == StrToUpper(parts[|parts| - 2]) + "_CLIENT_NS"
  {
    var name := ProductName(vars[ProductPathKey]);
    var inlineNs := StrToUpper(name) + "_CLIENT_NS";
    var name' := if nsType == Internal then name + "_internal" else name;
    ["google", "cloud", name', inlineNs]
  }

  /**
   The internal chain differs from the public one only in its third element,
   which has `_internal` appended; omitting the kind gives the public chain.
   */
  lemma InternalDiffersOnlyInProduct(vars: map<string, string>)
    requires ProductPathKey in vars
    requires '/' in vars[ProductPathKey]
    ensures var normal := BuildNamespaces(vars, Normal);
            BuildNamespaces(vars, Internal) == normal[2 := normal[2] + "_internal"]
    ensures BuildNamespaces(vars) == BuildNamespaces(vars, Normal)
  {
  }

  /**
   A product path made of any prefix, a `/`, a directory name without `/`
   and a final `/` is named after that directory, whatever the prefix.
   */
  lemma BuildNamespacesOfDirectory(vars: map<string, string>, nsType: NamespaceType, prefix: string, product: string)
    requires '/' !in product
    requires ProductPathKey in vars && vars[ProductPathKey] == prefix + "/" + product + "/"
    ensures '/' in vars[ProductPathKey]
    ensures BuildNamespaces(vars, nsType)
            == ["google", "cloud", product + (if nsType == Internal then "_internal" else ""), StrToUpper(product) + "_CLIENT_NS"]
  {
    var p := vars[ProductPathKey];
    assert p[|p| - 1] == '/';
    SplitTrailingDelimiter(prefix + "/" + product, '/');
    SplitTrailingPiece(prefix, '/', product);
    assert p == prefix + "/" + product + ['/'];
    assert prefix + "/" + product == prefix + ['/'] + product;
  }

  /**
   For a path ending in `/`, the product name is the text after the last `/`
   of the path without its final `/`, that is the path's last directory.
   */
  lemma {:induction false} ProductNameOfDirectory(dir: string)
    ensures '/' in dir + "/"
    ensures var parts := Split(dir, '/');
            ProductName(dir + "/") == parts[|parts| - 1]
  {
    assert (dir + "/")[|dir|] == '/';
    SplitTrailingDelimiter(dir, '/');
  }

  /** The message of the error for a missing `product_path` parameter. */
  const MissingProductPathMessage := "--cpp_codegen_opt=product_path=<path> must be specified."

  /**
   Index of the first pair whose key is `key`, or `|args|` when there is
   none, as `std::find_if` returns the end iterator.
   */
  function FindKey(args: seq<(string, string)>, key: string): (k: nat)
    ensures k <= |args|
    ensures k < |args| ==> args[k].0 == key
    ensures forall j :: 0 <= j < k ==> args[j].0 != key
  {
    if |args| == 0 then 0
    else if args[0].0 == key then 0
    else 1 + FindKey(args[1..], key)
  }

  /** `s` without one leading `/`, if it has one. */
  function DropLeadingSlash(s: string): string {
    if |s| > 0 && s[0] == '/' then s[1..] else s
  }

  /** `s` without one trailing `/`, if it has one. */
  function DropTrailingSlash(s: string): string {
    if |s| > 0 && s[|s| - 1] == '/' then s[..|s| - 1] else s
  }

  /**
   A product path value the normalisation is defined on: the source reads its
   first character, and, after dropping a leading `/`, its last character.
   */
  predicate NormalizablePath(v: string) {
    |v| > 0 && v != "/"
  }

  /**
   The product path with one leading `/` dropped and a `/` appended unless it
   already ends in one.
   */
  function NormalizeProductPath(v: string): (r: string)
    requires NormalizablePath(v)
    ensures |r| > 0 && r[|r| - 1] == '/'
    ensures DropTrailingSlash(r) == DropTrailingSlash(DropLeadingSlash(v))
  {
    var stripped := if v[0] == '/' then v[1..] else v;
    if stripped[|stripped| - 1] != '/' then stripped + "/" else stripped
  }

  /**
   Normalisation leaves a path alone exactly when it has no leading `/` and
   already ends in `/`.
   */
  lemma NormalizeFixedPoint(v: string)
    requires NormalizablePath(v)
    ensures NormalizeProductPath(v) == v <==> v[0] != '/' && v[|v| - 1] == '/'
  {
  }

  /**
   Normalising a second time changes nothing, except when the path began with
   two slashes: only one is dropped, so the result still begins with `/`.
   */
  lemma NormalizeTwice(v: string)
    requires NormalizablePath(v) && v != "//"
    ensures NormalizablePath(NormalizeProductPath(v))
    ensures NormalizeProductPath(NormalizeProductPath(v)) == NormalizeProductPath(v)
            <==> !(|v| >= 2 && v[0] == '/' && v[1] == '/')
  {

  }

  /**
   Validates the generator parameters, already split into key/value pairs.
   Without a `product_path` pair the result is an `InvalidArgument` error;
   otherwise the first such pair's value is normalised and every other pair
   is returned as it was, in the same order.
   */
  function ProcessCommandLineArgs(args: seq<(string, string)>): (r: StatusOr<seq<(string, string)>>)
    requires FindKey(args, ProductPathKey) < |args| ==> NormalizablePath(args[FindKey(args, ProductPathKey)].1)
    ensures r.Err? <==> forall j :: 0 <= j < |args| ==> args[j].0 != ProductPathKey
    ensures r.Err? ==> r == Err(InvalidArgument, MissingProductPathMessage)
    ensures r.Ok? ==>
              var k := FindKey(args, ProductPathKey);
              && |r.value| == |args|
              && r.value[k] == (ProductPathKey, NormalizeProductPath(args[k].1))
              && forall j :: 0 <= j < |args| && j != k ==> r.value[j] == args[j]
  {
    var k := FindKey(args, ProductPathKey);
    if k == |args| then
      Err(InvalidArgument, MissingProductPathMessage)
    else
      Ok(args[k := (args[k].0, NormalizeProductPath(args[k].1))])
  }

  /**
   A normalised product path meets what `BuildNamespaces` requires of it, and
   the product is named after the path's last directory.
   */
  lemma NormalizedPathBuildsNamespaces(v: string, vars: map<string, string>)
    requires NormalizablePath(v)
    requires ProductPathKey in vars && vars[ProductPathKey] == NormalizeProductPath(v)
    ensures '/' in vars[ProductPathKey]
    ensures var p := vars[ProductPathKey];
            var parts := Split(p[..|p| - 1], '/');
            BuildNamespaces(vars)[2] == parts[|parts| - 1]
  {
    var p := vars[ProductPathKey];
    var dir := p[..|p| - 1];
    assert p == dir + "/" by {
      assert p[|p| - 1] == '/';
    }
    ProductNameOfDirectory(dir);
  }
}

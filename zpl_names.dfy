/** The naming rules of the zenpack scaffolding command
    (ZenPacks/zenoss/ZenPackLib/lib/libexec/ZPLCommand.py): validation of a
    ZenPack name with its suggested replacement, and the package chain,
    namespace packages and module directory computed for a new source
    tree. */
module ZenPackNames {
  import opened Wrappers
  import opened Strings

  /** The outcome of `validate_zenpack_name`: accepted, or the process
      exits because the name has fewer than three segments, or because its
      first segment is not 'ZenPacks' (with the name suggested instead). */
  datatype NameCheck = Accepted | TooFewSegments | WrongPrefix(got: string, suggested: string)

  function ValidateZenPackName(name: string): (r: NameCheck)
    ensures r == Accepted <==> |Split(name, '.')| >= 3 && Split(name, '.')[0] == "ZenPacks"
    ensures r == TooFewSegments <==> |Split(name, '.')| < 3
    ensures r.WrongPrefix? ==> r.got == Split(name, '.')[0] && r.got != "ZenPacks"
  {
    var parts := Split(name, '.');
    if |parts| < 3 then TooFewSegments
    else if parts[0] != "ZenPacks" then WrongPrefix(parts[0], "ZenPacks." + Join(parts[1..], "."))
    else Accepted
  }

  /** The suggested name keeps every segment after the first, puts
      'ZenPacks' first, and is itself accepted. */
  lemma SuggestionAccepted(name: string)
    requires ValidateZenPackName(name).WrongPrefix?
    ensures var parts := Split(name, '.');
      var suggested := ValidateZenPackName(name).suggested;
      && Split(suggested, '.') == ["ZenPacks"] + parts[1..]
      && ValidateZenPackName(suggested) == Accepted
  {
    var parts := Split(name, '.');
    var whole := ["ZenPacks"] + parts[1..];
    assert whole[1..] == parts[1..];
    assert Join(whole, ".") == "ZenPacks." + Join(parts[1..], ".");
    forall i | 0 <= i < |whole| ensures '.' !in whole[i] {
      if i > 0 {
        assert whole[i] == parts[i];
      }
    }
    SplitJoin(whole, '.');
  }

  /** `reduce(lambda x, y: x + ['.'.join((x[-1], y))], rest, acc)` */
  function PackagesFrom(acc: seq<string>, rest: seq<string>): (r: seq<string>)
    requires |acc| > 0
    ensures |r| == |acc| + |rest|
    ensures r[..|acc|] == acc
    decreases |rest|
  {
    if rest == [] then acc
    else
      var next := acc + [acc[|acc| - 1] + "." + rest[0]];
      var r := PackagesFrom(next, rest[1..]);
      assert r[..|acc|] == r[..|next|][..|acc|];
      r
  }

  /** The `packages` list of `create_zenpack_srcdir`. */
  function Packages(name: string): seq<string>
  {
    PackagesFrom(["ZenPacks"], Split(name, '.')[1..])
  }

  /** `namespace_packages`: all packages but the last. */
  function NamespacePackages(name: string): (r: seq<string>)
    ensures |r| == |Split(name, '.')| - 1
    ensures r == Packages(name)[..|Packages(name)| - 1]
  {
    var p := Packages(name);
    p[..|p| - 1]
  }

  /** Each entry after the accumulated ones extends its predecessor by one
      segment. */
  lemma {:induction false} PackagesFromStep(acc: seq<string>, rest: seq<string>)
    requires |acc| > 0
    ensures var r := PackagesFrom(acc, rest);
      forall k :: |acc| <= k < |r| ==> r[k] == r[k - 1] + "." + rest[k - |acc|]
    decreases |rest|
  {
    if rest != [] {
      var next := acc + [acc[|acc| - 1] + "." + rest[0]];
      PackagesFromStep(next, rest[1..]);
      var r := PackagesFrom(acc, rest);
      assert r == PackagesFrom(next, rest[1..]);
      assert r[..|next|] == next;
      forall k | |acc| <= k < |r| ensures r[k] == r[k - 1] + "." + rest[k - |acc|] {
        if k == |acc| {
          assert r[k] == r[..|next|][k];
          assert r[k - 1] == r[..|acc|][k - 1];
        } else {
          assert rest[1..][k - |next|] == rest[k - |acc|];
        }
      }
    }
  }

  /** There is one package per name segment; the first is 'ZenPacks' and
      each next one adds the next segment. */
  lemma PackagesChain(name: string)
    ensures var parts := Split(name, '.');
      var p := Packages(name);
      && |p| == |parts|
      && p[0] == "ZenPacks"
      && forall k :: 1 <= k < |p| ==> p[k] == p[k - 1] + "." + parts[k]
  {
    var parts := Split(name, '.');
    var p := Packages(name);
    PackagesFromStep(["ZenPacks"], parts[1..]);
    assert p == PackagesFrom(["ZenPacks"], parts[1..]);
    assert p[0] == p[..1][0];
    forall k | 1 <= k < |p| ensures p[k] == p[k - 1] + "." + parts[k] {
      assert parts[1..][k - 1] == parts[k];
    }
  }

  /** Package k is the first k + 1 segments joined with dots; so, for a name
      beginning with 'ZenPacks', the last package is the name itself. */
  lemma {:induction false} PackagesArePrefixes(name: string)
    requires Split(name, '.')[0] == "ZenPacks"
    ensures var parts := Split(name, '.');
      var p := Packages(name);
      && (forall k :: 0 <= k < |p| ==> p[k] == Join(parts[..k + 1], "."))
      && p[|p| - 1] == name
  {
    var parts := Split(name, '.');
    var p := Packages(name);
    PackagesChain(name);
    forall k | 0 <= k < |p| ensures p[k] == Join(parts[..k + 1], ".") {
      PackageIsPrefix(parts, p, k);
    }
    assert parts[..|p|] == parts;
  }

  lemma {:induction false} PackageIsPrefix(parts: seq<string>, p: seq<string>, k: nat)
    requires |p| == |parts| && k < |p| && p[0] == parts[0]
    requires forall j :: 1 <= j < |p| ==> p[j] == p[j - 1] + "." + parts[j]
    ensures p[k] == Join(parts[..k + 1], ".")
  {
    if k > 0 {
      PackageIsPrefix(parts, p, k - 1);
      assert parts[..k + 1] == parts[..k] + [parts[k]];
      JoinSnoc(parts[..k], parts[k], ".");
    }
  }

  /** Python's `os.path.join(a, b)` on POSIX: an absolute `b` replaces
      `a`; otherwise a slash goes between them unless `a` is empty or ends
      with one. */
  function PathJoin(a: string, b: string): (r: string)
    ensures |b| > 0 && b[0] == '/' ==> r == b
    ensures (|b| == 0 || b[0] != '/') && |a| > 0 && a[|a| - 1] != '/' ==> r == a + "/" + b
    ensures (|b| == 0 || b[0] != '/') && (a == "" || a[|a| - 1] == '/') ==> r == a + b
  {
    if |b| > 0 && b[0] == '/' then b
    else if a == "" || a[|a| - 1] == '/' then a + b
    else a + "/" + b
  }

  /** `os.path.join(a, *parts)` */
  function PathJoinAll(a: string, parts: seq<string>): string
    decreases |parts|
  {
    if parts == [] then a else PathJoinAll(PathJoin(a, parts[0]), parts[1..])
  }

  /** `module_directory`: the name joined with each of its segments. */
  function ModuleDirectory(name: string): string
  {
    PathJoinAll(name, Split(name, '.'))
  }

  /** Joining non-empty parts without slashes onto a path not ending in a
      slash puts exactly one slash before each part. */
  lemma {:induction false} PathJoinAllPlain(a: string, parts: seq<string>)
    requires |a| > 0 && a[|a| - 1] != '/'
    requires forall i :: 0 <= i < |parts| ==> |parts[i]| > 0 && '/' !in parts[i]
    ensures PathJoinAll(a, parts) == if parts == [] then a else a + "/" + Join(parts, "/")
    decreases |parts|
  {
    if parts != [] {
      var b := parts[0];
      assert b[0] != '/' by { assert b[0] in b; }
      var a' := a + "/" + b;
      assert a'[|a'| - 1] == b[|b| - 1];
      assert b[|b| - 1] != '/' by { assert b[|b| - 1] in b; }
      assert forall i :: 0 <= i < |parts[1..]| ==> parts[1..][i] == parts[i + 1];
      PathJoinAllPlain(a', parts[1..]);
      if |parts| > 1 {
        assert Join(parts, "/") == b + "/" + Join(parts[1..], "/");
      }
    }
  }

  /** Every character of a part is a character of the joined string. */
  lemma {:induction false} PartCharsInJoin(parts: seq<string>, sep: string, i: nat, ch: char)
    requires i < |parts| && ch in parts[i]
    ensures ch in Join(parts, sep)
  {
    if |parts| > 1 {
      if i > 0 {
        PartCharsInJoin(parts[1..], sep, i - 1, ch);
      }
    }
  }

  /** For a name without slashes or empty segments, the module directory is
      the name, a slash, and the segments joined with slashes: for
      ZenPacks.example.Thing it is ZenPacks.example.Thing/ZenPacks/example/Thing. */
  lemma ModuleDirectoryShape(name: string)
    requires '/' !in name
    requires forall i :: 0 <= i < |Split(name, '.')| ==> |Split(name, '.')[i]| > 0
    ensures ModuleDirectory(name) == name + "/" + Join(Split(name, '.'), "/")
  {
    var parts := Split(name, '.');
    forall i | 0 <= i < |parts| ensures '/' !in parts[i] {
      if '/' in parts[i] {
        PartCharsInJoin(parts, ".", i, '/');
      }
    }
    assert |name| > 0 by {
      assert |parts[0]| > 0;
      PartCharsInJoin(parts, ".", 0, parts[0][0]);
    }
    assert name[|name| - 1] != '/' by { assert name[|name| - 1] in name; }
    PathJoinAllPlain(name, parts);
  }

  /** What `create_zenpack_srcdir` computes before touching the file
      system. */
  datatype Scaffold = Scaffold(packages: seq<string>, namespacePackages: seq<string>, moduleDirectory: string)

  /** Why `create_zenpack_srcdir` exits early. */
  datatype ScaffoldError = BadName(check: NameCheck) | AlreadyExists(name: string)

  /** `create_zenpack_srcdir` up to its first file-system change: the name
      is validated first, then a directory of that name must not exist
      (`dirExists` stands for `os.path.exists(zenpack_name)`). */
  function CreateZenPackSrcdir(name: string, dirExists: bool): (r: Result<Scaffold, ScaffoldError>)
    ensures r.Ok? <==> ValidateZenPackName(name) == Accepted && !dirExists
    ensures r.Err? && ValidateZenPackName(name) != Accepted ==> r.error == BadName(ValidateZenPackName(name))
    ensures ValidateZenPackName(name) == Accepted && dirExists ==> r == Err(AlreadyExists(name))
    ensures r.Ok? ==> r.value == Scaffold(Packages(name), NamespacePackages(name), ModuleDirectory(name))
    ensures r.Ok? ==>
      && |r.value.packages| == |Split(name, '.')| >= 3
      && r.value.packages[0] == "ZenPacks"
      && (forall k :: 0 <= k < |r.value.packages| ==> r.value.packages[k] == Join(Split(name, '.')[..k + 1], "."))
      && r.value.packages[|r.value.packages| - 1] == name
      && r.value.namespacePackages + [name] == r.value.packages
    // the module directory of a name without slashes or empty segments
    ensures r.Ok? && '/' !in name && (forall i :: 0 <= i < |Split(name, '.')| ==> |Split(name, '.')[i]| > 0) ==>
      r.value.moduleDirectory == name + "/" + Join(Split(name, '.'), "/")
  {
    var check := ValidateZenPackName(name);
    if check != Accepted then Err(BadName(check))
    else if dirExists then Err(AlreadyExists(name))
    else
      PackagesChain(name);
      PackagesArePrefixes(name);
      var p := Packages(name);
      assert NamespacePackages(name) + [name] == p;
      assert '/' !in name && (forall i :: 0 <= i < |Split(name, '.')| ==> |Split(name, '.')[i]| > 0) ==>
        (ModuleDirectoryShape(name); true);
      Ok(Scaffold(p, NamespacePackages(name), ModuleDirectory(name)))
  }
}

/**
 * The two path helpers of the debugger window: the class name a breakpoint
 * click derives from a source file's path, and the source file it looks for
 * when the debuggee halts.
 */
module SourcePaths {
  import opened Wrappers
  import opened JavaStrings

  /**
   * The path after the first "/src/", or else its last component: the longest
   * ending without '/', which is the whole path when it holds no '/'.
   */
  function RelativePath(normalized: string): (r: string)
    ensures EndsWith(normalized, r)
    ensures IndexOf(normalized, "/src/").Some? ==>
              normalized == normalized[..IndexOf(normalized, "/src/").value] + "/src/" + r
    ensures IndexOf(normalized, "/src/").None? ==>
              '/' !in r && (|r| == |normalized| || normalized[|normalized| - |r| - 1] == '/')
  {
    match IndexOf(normalized, "/src/")
    case Some(srcIndex) =>
      assert normalized[srcIndex..srcIndex + 5] == "/src/";
      assert normalized == normalized[..srcIndex] + normalized[srcIndex..srcIndex + 5] + normalized[srcIndex + 5..];
      normalized[srcIndex + 5..]
    case None =>
      match LastIndexOf(normalized, '/')
      case Some(lastSlash) =>
        var r := normalized[lastSlash + 1..];
        assert forall i :: 0 <= i < |r| ==> r[i] == normalized[lastSlash + 1 + i];
        r
      case None =>
        assert forall i :: 0 <= i < |normalized| ==> normalized[i] != '/';
        normalized
  }

  /** One trailing ".java" removed, if there is one. */
  function DropJava(s: string): (r: string)
    ensures EndsWith(s, ".java") ==> s == r + ".java"
    ensures !EndsWith(s, ".java") ==> r == s
  {
    if EndsWith(s, ".java") then s[..|s| - 5] else s
  }

  /**
   * extractClassName: backslashes become slashes, the part under "/src/" (or
   * the file name) is kept, ".java" is dropped and slashes become dots.
   */
  function ExtractClassName(filePath: string): (r: string)
    ensures '/' !in r && '\\' !in r
  {
    var normalized := Replace(filePath, '\\', '/');
    var relative := DropJava(RelativePath(normalized));
    NormalizedHasNoBackslash(filePath);
    StemHasNoBackslash(normalized, RelativePath(normalized));
    DottedHasNoSeparator(relative);
    Replace(relative, '/', '.')
  }

  lemma NormalizedHasNoBackslash(s: string)
    ensures '\\' !in Replace(s, '\\', '/')
  {
    var n := Replace(s, '\\', '/');
    assert forall i :: 0 <= i < |n| ==> n[i] != '\\';
  }

  /** An ending of a text without '\', with ".java" dropped, has no '\' either. */
  lemma StemHasNoBackslash(s: string, rel: string)
    requires '\\' !in s && EndsWith(s, rel)
    ensures '\\' !in DropJava(rel)
  {
    var stem := DropJava(rel);
    forall i | 0 <= i < |stem|
      ensures stem[i] != '\\'
    {
      assert stem[i] == rel[i] == s[|s| - |rel| + i];
      assert s[|s| - |rel| + i] in s;
    }
  }

  lemma DottedHasNoSeparator(s: string)
    requires '\\' !in s
    ensures '/' !in Replace(s, '/', '.') && '\\' !in Replace(s, '/', '.')
  {
    var r := Replace(s, '/', '.');
    forall i | 0 <= i < |r|
      ensures r[i] != '/' && r[i] != '\\'
    {
      assert s[i] in s;
    }
  }

  /** A class name spelled as a relative path: every '.' becomes `sep`. */
  function PathOf(className: string, sep: char): (r: string)
    ensures |r| == |className|
  {
    Replace(className, '.', sep)
  }

  lemma ReplaceBack(c: string, sep: char)
    requires sep !in c && sep != '.'
    ensures Replace(PathOf(c, sep), sep, '.') == c
  {
    var p := PathOf(c, sep);
    forall i | 0 <= i < |c|
      ensures Replace(p, sep, '.')[i] == c[i]
    {
      assert c[i] in c;
    }
  }

  lemma ReplaceConcat(a: string, b: string, x: char, y: char)
    ensures Replace(a + b, x, y) == Replace(a, x, y) + Replace(b, x, y)
  {
    var l, r := Replace(a + b, x, y), Replace(a, x, y) + Replace(b, x, y);
    forall i | 0 <= i < |a + b|
      ensures l[i] == r[i]
    {
      if i >= |a| {
        assert (a + b)[i] == b[i - |a|];
      }
    }
  }

  lemma ReplaceAbsent(s: string, x: char, y: char)
    requires x !in s
    ensures Replace(s, x, y) == s
  {
    forall i | 0 <= i < |s|
      ensures Replace(s, x, y)[i] == s[i]
    {
      assert s[i] in s;
    }
  }

  lemma NormalizeSeparator(root: string, sep: char)
    requires sep == '/' || sep == '\\'
    ensures Replace(root + [sep] + "src" + [sep], '\\', '/') == Replace(root, '\\', '/') + "/src/"
  {
    var tail := [sep] + "src" + [sep];
    assert root + [sep] + "src" + [sep] == root + tail;
    ReplaceConcat(root, tail, '\\', '/');
    var t := Replace(tail, '\\', '/');
    assert t == "/src/" by {
      assert t[0] == '/' && t[1] == 's' && t[2] == 'r' && t[3] == 'c' && t[4] == '/';
    }
  }

  lemma NormalizePackagePath(c: string, sep: char)
    requires sep == '/' || sep == '\\'
    requires '/' !in c && '\\' !in c
    ensures Replace(PathOf(c, sep), '\\', '/') == PathOf(c, '/')
  {
    forall i | 0 <= i < |c|
      ensures Replace(PathOf(c, sep), '\\', '/')[i] == PathOf(c, '/')[i]
    {
      assert c[i] in c;
    }
  }

  /** Turning backslashes into slashes turns a source path written with either separator into the slash form. */
  lemma NormalizeSourcePath(root: string, c: string, sep: char)
    requires sep == '/' || sep == '\\'
    requires '/' !in c && '\\' !in c
    ensures Replace(root + [sep] + "src" + [sep] + PathOf(c, sep) + ".java", '\\', '/') ==
            Replace(root, '\\', '/') + "/src/" + PathOf(c, '/') + ".java"
  {
    var pc := PathOf(c, sep);
    var prefix := root + [sep] + "src" + [sep];
    ReplaceConcat(prefix + pc, ".java", '\\', '/');
    ReplaceConcat(prefix, pc, '\\', '/');
    ReplaceAbsent(".java", '\\', '/');
    NormalizeSeparator(root, sep);
    NormalizePackagePath(c, sep);
  }

  /** No "/src/" starts inside the directory part `dir`, not even one running into the "/src/" after it. */
  predicate NoEarlierSrc(dir: string) {
    forall k: nat :: k < |dir| ==> !OccursAt(dir + "/src/", "/src/", k)
  }

  /** A directory name without '/' holds no "/src/". */
  lemma NoSlashNoEarlierSrc(dir: string)
    requires '/' !in dir
    ensures NoEarlierSrc(dir)
  {
    forall k: nat | k < |dir|
      ensures !OccursAt(dir + "/src/", "/src/", k)
    {
      assert (dir + "/src/")[k] == dir[k] && dir[k] in dir;
    }
  }

  /** When the directory part holds no "/src/", the "/src/" right after it is the first one. */
  lemma FirstSrcAt(dir: string, rest: string)
    requires NoEarlierSrc(dir)
    ensures IndexOf(dir + "/src/" + rest, "/src/") == Some(|dir|)
  {
    var s := dir + "/src/" + rest;
    assert s[|dir|..|dir| + 5] == "/src/";
    forall k: nat | k < |dir|
      ensures !OccursAt(s, "/src/", k)
    {
      assert !OccursAt(dir + "/src/", "/src/", k);
      assert s[k..k + 5] == (dir + "/src/")[k..k + 5];
    }
    var r := IndexOf(s, "/src/");
    assert OccursAt(s, "/src/", |dir|);
    if r.Some? {
      assert r.value <= |dir| && !(r.value < |dir|);
    }
  }

  /**
   * extractClassName undoes the layout of a source tree: the file of class `c`
   * under a "src" directory, written with '/' or with '\', gives `c` back,
   * provided the directories above "src" hold no "src" directory of their own.
   */
  lemma ExtractClassNameUnderSrc(root: string, c: string, sep: char)
    requires sep == '/' || sep == '\\'
    requires NoEarlierSrc(Replace(root, '\\', '/'))
    requires '/' !in c && '\\' !in c
    ensures ExtractClassName(root + [sep] + "src" + [sep] + PathOf(c, sep) + ".java") == c
  {
    var nr := Replace(root, '\\', '/');
    var p := PathOf(c, '/');
    var expected := nr + "/src/" + p + ".java";
    NormalizeSourcePath(root, c, sep);
    FirstSrcAt(nr, p + ".java");
    assert expected == nr + "/src/" + (p + ".java");
    assert RelativePath(expected) == p + ".java" by {
      assert expected[|nr| + 5..] == p + ".java";
    }
    assert DropJava(p + ".java") == p by {
      assert EndsWith(p + ".java", ".java");
    }
    ReplaceBack(c, '/');
  }

  /** The same for a single directory name above "src", with either separator. */
  lemma ExtractClassNameOfSourcePath(root: string, c: string, sep: char)
    requires sep == '/' || sep == '\\'
    requires '/' !in root && '\\' !in root
    requires '/' !in c && '\\' !in c
    ensures ExtractClassName(root + [sep] + "src" + [sep] + PathOf(c, sep) + ".java") == c
  {
    ReplaceAbsent(root, '\\', '/');
    NoSlashNoEarlierSrc(root);
    ExtractClassNameUnderSrc(root, c, sep);
  }

  /** A Windows path of the kind the window receives: `C:\Users\me\src\dbg\MaClasse.java` names `dbg.MaClasse`. */
  lemma WindowsSourcePath()
    ensures ExtractClassName("C:\\Users\\me\\src\\dbg\\MaClasse.java") == "dbg.MaClasse"
  {
    WindowsPathPieces();
    WindowsRootHasNoSrc("C:\\Users\\me");
    ExtractClassNameUnderSrc("C:\\Users\\me", "dbg.MaClasse", '\\');
  }

  lemma WindowsPathPieces()
    ensures "C:\\Users\\me\\src\\dbg\\MaClasse.java" ==
            "C:\\Users\\me" + ['\\'] + "src" + ['\\'] + PathOf("dbg.MaClasse", '\\') + ".java"
  {
    assert PathOf("dbg.MaClasse", '\\') == "dbg\\MaClasse";
  }

  lemma WindowsRootHasNoSrc(root: string)
    requires root == "C:\\Users\\me"
    ensures NoEarlierSrc(Replace(root, '\\', '/'))
  {
    var nr := Replace(root, '\\', '/');
    assert nr == "C:/Users/me";
    forall k: nat | k < |nr|
      ensures !OccursAt(nr + "/src/", "/src/", k)
    {
      var s := nr + "/src/";
      assert s == "C:/Users/me/src/";
      assert s[k] != '/' || s[k + 1] != 's';
      assert s[k..k + 5][0] == s[k] && s[k..k + 5][1] == s[k + 1];
    }
  }

  lemma NoSeparatorInFileName(name: string)
    requires '/' !in name && '\\' !in name
    ensures '/' !in name + ".java" && '\\' !in name + ".java"
  {
    var f := name + ".java";
    forall i | 0 <= i < |f|
      ensures f[i] != '/' && f[i] != '\\'
    {
      if i < |name| {
        assert name[i] in name;
      }
    }
  }

  /**
   * A bare file name keeps everything but one trailing ".java": a name that
   * itself ends in ".java" keeps that ending.
   */
  lemma ExtractClassNameOfFileName(name: string)
    requires '/' !in name && '\\' !in name
    ensures ExtractClassName(name + ".java") == name
  {
    var f := name + ".java";
    NoSeparatorInFileName(name);
    ReplaceAbsent(f, '\\', '/');
    assert RelativePath(f) == f by {
      forall k: nat | k + 5 <= |f|
        ensures !OccursAt(f, "/src/", k)
      {
        assert f[k] in f;
        assert f[k..k + 5][0] == f[k];
      }
      assert IndexOf(f, "/src/").None?;
      assert LastIndexOf(f, '/').None?;
    }
    assert EndsWith(f, ".java");
    assert DropJava(f) == name;
    ReplaceAbsent(name, '/', '.');
  }

  /**
   * A path with no "src" directory names the class after its file alone: what
   * follows the last separator, with one trailing ".java" dropped.
   */
  lemma ExtractClassNameOutsideSrc(dir: string, name: string, sep: char)
    requires sep == '/' || sep == '\\'
    requires '/' !in name && '\\' !in name
    requires IndexOf(Replace(dir + [sep] + name, '\\', '/'), "/src/").None?
    ensures ExtractClassName(dir + [sep] + name) == DropJava(name)
  {
    var nd := Replace(dir, '\\', '/');
    NormalizeJoin(dir, name, sep);
    LastComponent(nd, name);
    StemHasNoSlash(name);
    ReplaceAbsent(DropJava(name), '/', '.');
  }

  lemma NormalizeJoin(dir: string, name: string, sep: char)
    requires sep == '/' || sep == '\\'
    requires '\\' !in name
    ensures Replace(dir + [sep] + name, '\\', '/') == Replace(dir, '\\', '/') + "/" + name
  {
    ReplaceConcat(dir + [sep], name, '\\', '/');
    ReplaceConcat(dir, [sep], '\\', '/');
    ReplaceAbsent(name, '\\', '/');
    assert Replace([sep], '\\', '/') == "/" by {
      assert Replace([sep], '\\', '/')[0] == '/';
    }
  }

  /** Without a "/src/", the relative path of `nd/name` is `name` when `name` holds no '/'. */
  lemma LastComponent(nd: string, name: string)
    requires '/' !in name
    requires IndexOf(nd + "/" + name, "/src/").None?
    ensures RelativePath(nd + "/" + name) == name
  {
    var p := nd + "/" + name;
    forall k | |nd| + 1 <= k < |p|
      ensures p[k] != '/'
    {
      assert p[k] == name[k - |nd| - 1] && name[k - |nd| - 1] in name;
    }
    assert p[|nd|] == '/';
    assert LastIndexOf(p, '/') == Some(|nd|);
    assert p[|nd| + 1..] == name;
  }

  lemma StemHasNoSlash(name: string)
    requires '/' !in name
    ensures '/' !in DropJava(name)
  {
    var stem := DropJava(name);
    forall i | 0 <= i < |stem|
      ensures stem[i] != '/'
    {
      assert stem[i] == name[i] && name[i] in name;
    }
  }

  /**
   * The directory of the class's package: the class name with dots turned into
   * separators, cut after the last separator; empty when no separator sits
   * after the first character.
   */
  function PackageDir(className: string, sep: char): (r: string)
    ensures |r| <= |className|
  {
    var packagePath := PathOf(className, sep);
    match LastIndexOf(packagePath, sep)
    case Some(lastSep) => if lastSep > 0 then packagePath[..lastSep + 1] else ""
    case None => ""
  }

  /** A class `pkg.Simple` in a named package lives in directory `pkg/` (with `sep` for '/'). */
  lemma PackageDirOfQualified(pkg: string, simple: string, sep: char)
    requires pkg != [] && sep != '.' && sep !in pkg && sep !in simple && '.' !in simple
    ensures PackageDir(pkg + "." + simple, sep) == PathOf(pkg, sep) + [sep]
  {
    var c := pkg + "." + simple;
    var pp := PathOf(c, sep);
    var at := |pkg|;
    assert pp[at] == sep;
    forall k | at < k < |pp|
      ensures pp[k] != sep
    {
      assert c[k] == simple[k - at - 1] && simple[k - at - 1] in simple;
    }
    assert LastIndexOf(pp, sep) == Some(at);
    forall i | 0 <= i < at
      ensures pp[i] == PathOf(pkg, sep)[i]
    {
      assert c[i] == pkg[i];
    }
    assert pp[..at + 1] == PathOf(pkg, sep) + [sep];
  }

  /** A class in the unnamed package has no package directory. */
  lemma PackageDirOfUnqualified(className: string, sep: char)
    requires sep != '.' && sep !in className && '.' !in className
    ensures PackageDir(className, sep) == ""
  {
    var pp := PathOf(className, sep);
    forall k | 0 <= k < |pp|
      ensures pp[k] != sep
    {
      assert className[k] in className;
    }
  }

  /** The three places findSourceFile tries, in order. */
  function Candidates(base: string, sep: char, className: string, sourceName: string): (r: seq<string>)
    ensures |r| == 3
  {
    [base + [sep] + PackageDir(className, sep) + sourceName,
     base + [sep] + sourceName,
     base + [sep] + "dbg" + [sep] + sourceName]
  }

  /** findSourceFile: the first candidate that exists, or `None` (null). */
  function FindSourceFile(base: string, sep: char, className: string, sourceName: string, exists_: string -> bool): Option<string> {
    var fullPath := base + [sep] + PackageDir(className, sep) + sourceName;
    if exists_(fullPath) then Some(fullPath)
    else
      var direct := base + [sep] + sourceName;
      if exists_(direct) then Some(direct)
      else
        var underDbg := base + [sep] + "dbg" + [sep] + sourceName;
        if exists_(underDbg) then Some(underDbg)
        else None
  }

  /** findSourceFile returns the first existing candidate in the fixed order, and null only when none exists. */
  lemma FindSourceFileFirst(base: string, sep: char, className: string, sourceName: string, exists_: string -> bool)
    ensures var cs := Candidates(base, sep, className, sourceName);
            var r := FindSourceFile(base, sep, className, sourceName, exists_);
            (r.None? <==> forall i :: 0 <= i < 3 ==> !exists_(cs[i])) &&
            (r.Some? ==> exists i :: 0 <= i < 3 && r.value == cs[i] && exists_(cs[i]) &&
                                     forall j :: 0 <= j < i ==> !exists_(cs[j]))
  {
    var cs := Candidates(base, sep, className, sourceName);
    var r := FindSourceFile(base, sep, className, sourceName, exists_);
    if exists_(cs[0]) {
      assert r.value == cs[0];
    } else if exists_(cs[1]) {
      assert r.value == cs[1];
    } else if exists_(cs[2]) {
      assert r.value == cs[2];
    }
  }
}

/** Message definitions as the generator holds them, and the names their field types resolve to. */
module Definitions {
  import S = Schema

  datatype Container = Scalar | Array | Sequence

  /** A bound of 0 means that none was declared. */
  datatype Field = Field(name: string, ty: string, container: Container, length: nat, bound: nat, textBound: nat)

  /** `canonical` is what definitions are identified by. */
  datatype Definition = Definition(package: string, name: string, canonical: string, fields: seq<Field>)

  /** `primitive_cpp`: the scalar a type name stands for, if it is one; strings are apart. */
  datatype Kind = Number(p: S.Prim) | Text | Other

  function KindOf(ty: string): Kind {
    if ty == "byte" then Number(S.Octet)
    else if ty == "char" || ty == "uint8" || ty == "octet" then Number(S.U8)
    else if ty == "bool" || ty == "boolean" then Number(S.Bool)
    else if ty == "int8" then Number(S.I8)
    else if ty == "int16" || ty == "short" then Number(S.I16)
    else if ty == "uint16" || ty == "unsigned short" then Number(S.U16)
    else if ty == "int32" || ty == "long" then Number(S.I32)
    else if ty == "uint32" || ty == "unsigned long" then Number(S.U32)
    else if ty == "int64" || ty == "long long" then Number(S.I64)
    else if ty == "uint64" || ty == "unsigned long long" then Number(S.U64)
    else if ty == "float32" || ty == "float" then Number(S.F32)
    else if ty == "float64" || ty == "double" then Number(S.F64)
    else if ty == "string" || "string<" <= ty then Text
    else Other
  }

  predicate IsPrimitive(ty: string) {
    !KindOf(ty).Other?
  }

  /** The names of each scalar, those of interface files and those of the two message languages. */
  lemma {:induction false} NamesOfIntegers(ty: string)
    ensures KindOf(ty) == Number(S.Octet) <==> ty == "byte"
    ensures KindOf(ty) == Number(S.U8) <==> ty == "char" || ty == "uint8" || ty == "octet"
    ensures KindOf(ty) == Number(S.I8) <==> ty == "int8"
    ensures KindOf(ty) == Number(S.U16) <==> ty == "uint16" || ty == "unsigned short"
    ensures KindOf(ty) == Number(S.I16) <==> ty == "int16" || ty == "short"
    ensures KindOf(ty) == Number(S.U32) <==> ty == "uint32" || ty == "unsigned long"
    ensures KindOf(ty) == Number(S.I32) <==> ty == "int32" || ty == "long"
    ensures KindOf(ty) == Number(S.U64) <==> ty == "uint64" || ty == "unsigned long long"
    ensures KindOf(ty) == Number(S.I64) <==> ty == "int64" || ty == "long long"
  {
  }

  lemma {:induction false} NamesOfOthers(ty: string)
    ensures KindOf(ty) == Number(S.Bool) <==> ty == "bool" || ty == "boolean"
    ensures KindOf(ty) == Number(S.F32) <==> ty == "float32" || ty == "float"
    ensures KindOf(ty) == Number(S.F64) <==> ty == "float64" || ty == "double"
  {
  }

  lemma {:induction false} NamesOfStrings(ty: string)
    ensures KindOf(ty) == Text <==> ty == "string" || "string<" <= ty
  {
    if "string<" <= ty {
      assert ty[0] == "string<"[0] && ty[6] == "string<"[6];
    }
  }

  /** The names that need no definition. */
  predicate IsPrimitiveName(ty: string) {
    || ty == "byte" || ty == "char" || ty == "bool" || ty == "boolean" || ty == "octet"
    || ty == "int8" || ty == "int16" || ty == "int32" || ty == "int64"
    || ty == "uint8" || ty == "uint16" || ty == "uint32" || ty == "uint64"
    || ty == "short" || ty == "long" || ty == "long long"
    || ty == "unsigned short" || ty == "unsigned long" || ty == "unsigned long long"
    || ty == "float32" || ty == "float64" || ty == "float" || ty == "double"
    || ty == "string" || "string<" <= ty
  }

  lemma {:induction false} PrimitivesAreNamed(ty: string)
    ensures IsPrimitive(ty) <==> IsPrimitiveName(ty)
  {
  }

  // ----- names -----

  predicate Contains(s: string, part: string) {
    part <= s || (s != "" && Contains(s[1..], part))
  }

  predicate Qualified(ty: string) {
    Contains(ty, "/msg/") || Contains(ty, "/action/")
  }

  /** `std::string::find`: the first place of a character; the end if there is none. */
  function Find(s: string, c: char): (k: nat)
    ensures k <= |s| && c !in s[..k] && (k < |s| ==> s[k] == c)
  {
    if s == "" || s[0] == c then 0
    else
      var k := Find(s[1..], c);
      assert s[..k + 1] == [s[0]] + s[1..][..k];
      k + 1
  }

  lemma {:induction false} FindIn(before: string, c: char, after: string)
    requires c !in before
    ensures Find(before + [c] + after, c) == |before|
    decreases |before|
  {
    var s := before + [c] + after;
    if before != "" {
      assert before[0] in before && s[1..] == before[1..] + [c] + after;
      FindIn(before[1..], c, after);
    }
  }

  lemma {:induction false} FindNone(s: string, c: char)
    requires c !in s
    ensures Find(s, c) == |s|
  {
    if s != "" {
      assert s[0] in s;
      FindNone(s[1..], c);
    }
  }

  /** `canonical_type`. */
  function CanonicalType(package: string, ty: string): string {
    if ty == "Header" then "std_msgs/msg/Header"
    else if Qualified(ty) then ty
    else
      var slash := Find(ty, '/');
      if slash < |ty| then ty[..slash] + "/msg/" + ty[slash + 1..]
      else package + "/msg/" + ty
  }

  lemma {:induction false} ContainsMiddle(before: string, part: string, after: string)
    ensures Contains(before + part + after, part)
    decreases |before|
  {
    if before == "" {
      assert part <= before + part + after;
    } else {
      assert (before + part + after)[1..] == before[1..] + part + after;
      ContainsMiddle(before[1..], part, after);
    }
  }

  lemma {:induction false} CanonicalIsQualified(package: string, ty: string)
    ensures Qualified(CanonicalType(package, ty)) && CanonicalType(package, ty) != "Header"
  {
    if ty == "Header" {
      assert "std_msgs/msg/Header" == "std_msgs" + "/msg/" + "Header";
      ContainsMiddle("std_msgs", "/msg/", "Header");
    } else if !Qualified(ty) {
      var slash := Find(ty, '/');
      if slash < |ty| {
        ContainsMiddle(ty[..slash], "/msg/", ty[slash + 1..]);
        assert CanonicalType(package, ty)[slash] == '/';
      } else {
        ContainsMiddle(package, "/msg/", ty);
        assert CanonicalType(package, ty)[|package|] == '/';
      }
    } else {
      HeaderIsUnqualified();
    }
  }

  lemma {:induction false} HeaderIsUnqualified()
    ensures !Qualified("Header")
  {
    NoSlash("Header", "/msg/");
    NoSlash("Header", "/action/");
  }

  lemma {:induction false} NoSlash(s: string, part: string)
    requires '/' !in s && part != "" && part[0] == '/'
    ensures !Contains(s, part)
  {
    if s != "" {
      assert s[0] in s;
      NoSlash(s[1..], part);
    }
  }

  lemma {:induction false} OneSlash(before: string, after: string, part: string)
    requires '/' !in before && '/' !in after && part != "" && part[0] == '/' && '/' in part[1..]
    ensures !Contains(before + "/" + after, part)
    decreases |before|
  {
    var s := before + "/" + after;
    if before == "" {
      assert s == "/" + after && s[1..] == after;
      NotPrefix(after, part);
      NoSlash(after, part);
    } else {
      assert before[0] in before && s[1..] == before[1..] + "/" + after;
      OneSlash(before[1..], after, part);
    }
  }

  lemma {:induction false} NotPrefix(after: string, part: string)
    requires '/' !in after && part != "" && '/' in part[1..]
    ensures !(part <= "/" + after)
  {
    var i :| 0 <= i < |part[1..]| && part[1..][i] == '/';
    assert i < |after| ==> after[i] in after;
    assert part[i + 1] == '/';
  }

  /** A bare name is looked up in its own package, a name with a package in that one. */
  lemma {:induction false} CanonicalForms(package: string, other: string, name: string)
    requires '/' !in other && '/' !in name && name != "Header"
    ensures CanonicalType(package, name) == package + "/msg/" + name
    ensures CanonicalType(package, other + "/" + name) == other + "/msg/" + name
    ensures CanonicalType(package, "Header") == "std_msgs/msg/Header"
  {
    NoSlash(name, "/msg/");
    NoSlash(name, "/action/");
    FindNone(name, '/');
    OneSlash(other, name, "/msg/");
    OneSlash(other, name, "/action/");
    var ty := other + "/" + name;
    assert ty == other + ['/'] + name;
    FindIn(other, '/', name);
    assert ty[..|other|] == other && ty[|other| + 1..] == name;
    assert ty[|other|] == '/' && '/' !in "Header";
  }

  /** A canonical name is its own canonical name, whichever package refers to it. */
  lemma {:induction false} CanonicalIsStable(package: string, other: string, ty: string)
    ensures CanonicalType(other, CanonicalType(package, ty)) == CanonicalType(package, ty)
  {
    CanonicalIsQualified(package, ty);
  }

  // ----- the order of names -----

  /** `a <= b` for strings in C++: the first difference decides. */
  predicate NotAfter(a: string, b: string) {
    if a == "" then true
    else if b == "" then false
    else if a[0] != b[0] then a[0] < b[0]
    else NotAfter(a[1..], b[1..])
  }

  lemma {:induction false} NotAfterTotal(a: string, b: string)
    ensures NotAfter(a, b) || NotAfter(b, a)
    decreases |a|
  {
    if a != "" && b != "" && a[0] == b[0] {
      NotAfterTotal(a[1..], b[1..]);
    }
  }

  lemma {:induction false} NotAfterBoth(a: string, b: string)
    requires NotAfter(a, b) && NotAfter(b, a)
    ensures a == b
    decreases |a|
  {
    if a != "" && b != "" {
      NotAfterBoth(a[1..], b[1..]);
      assert a == [a[0]] + a[1..] && b == [b[0]] + b[1..];
    }
  }

  lemma {:induction false} NotAfterTransitive(a: string, b: string, c: string)
    requires NotAfter(a, b) && NotAfter(b, c)
    ensures NotAfter(a, c)
    decreases |a|
  {
    if a != "" && b != "" && c != "" && a[0] == b[0] == c[0] {
      NotAfterTransitive(a[1..], b[1..], c[1..]);
    }
  }
}

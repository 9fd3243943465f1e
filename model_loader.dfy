// The Wavefront OBJ parsing steps of src-xpl/xpl_model_loader.c. A line
// arrives already split into white-space separated tokens (strtok's cursor is
// the position in that token list); atof is a parameter since float parsing
// is not modelled.

module ModelLoader {
  import opened Strings

  /** Faces have room for this many vertices (MAX_VERTEX_COUNT). */
  const MaxVertexCount: nat := 4

  datatype Vec3 = Vec3(x: real, y: real, z: real)

  /** The three 1-based indices one face token names; an absent part is 0. */
  datatype VertexIndex = VertexIndex(vertex: int, texture: int, normal: int)

  /** A face after conversion to 0-based indices. */
  datatype Face = Face(vertexIndices: seq<int>, textureIndices: seq<int>, normalIndices: seq<int>, materialIndex: int)

  lemma FirstSlashBeforeDoubleSlash(tok: string)
    requires Contains(tok, "//")
    ensures '/' in tok && IndexOf(tok, '/') + 2 <= |tok| && |AfterSlash(tok)| >= 1
  {
    var k: nat :| k <= |tok| && OccursAt(tok, "//", k);
    assert tok[k] == tok[k..k + 2][0] == '/';
    assert '/' in tok[..k + 1];
  }

  /** One token of an "f" line: "v", "v/t", "v/t/n" or "v//n". The vertex is
      atoi of the whole token; with "//" the normal is read two characters
      past the first slash; otherwise the texture follows the first slash and
      the normal follows the next one, if any. */
  function ParseVertexToken(tok: string): VertexIndex
  {
    var v := Atoi(tok);
    if Contains(tok, "//") then
      FirstSlashBeforeDoubleSlash(tok);
      VertexIndex(v, 0, Atoi(AfterSlash(tok)[1..]))
    else if '/' in tok then
      var rest := AfterSlash(tok);
      VertexIndex(v, Atoi(rest), if '/' in rest then Atoi(AfterSlash(rest)) else 0)
    else VertexIndex(v, 0, 0)
  }

  /** The text after the first slash (strchr(s, '/') + 1). */
  function AfterSlash(s: string): (r: string)
    requires '/' in s
    ensures |r| < |s|
  {
    s[IndexOf(s, '/') + 1..]
  }

  lemma NoSlashInNumber(n: nat)
    ensures '/' !in DecimalString(n)
    ensures !Contains(DecimalString(n), "//")
  {
    NoDoubleSlash(DecimalString(n));
  }

  /** The first slash of a + sep + b is the one that starts sep. */
  lemma AfterSlashOfPrefix(a: string, sep: string, b: string)
    requires '/' !in a && |sep| > 0 && sep[0] == '/'
    ensures '/' in a + sep + b && AfterSlash(a + sep + b) == sep[1..] + b
  {
    var s := a + sep + b;
    assert s[|a|] == '/';
    assert s[|a| + 1..] == sep[1..] + b;
  }

  lemma AtoiOfNumberThen(v: nat, sep: string, b: string)
    requires |sep| > 0 && !IsDigit(sep[0])
    ensures Atoi(DecimalString(v) + sep + b) == v
  {
    assert DecimalString(v) + sep + b == DecimalString(v) + (sep + b);
    AtoiOfDecimal(v, sep + b);
  }

  lemma AtoiOfNumber(n: nat)
    ensures Atoi(DecimalString(n)) == n
  {
    AtoiOfDecimal(n, "");
    assert DecimalString(n) + "" == DecimalString(n);
  }

  /** No two slashes are adjacent, so "//" does not occur. */
  lemma NoDoubleSlash(tok: string)
    requires forall k :: 0 <= k < |tok| - 1 ==> tok[k] != '/' || tok[k + 1] != '/'
    ensures !Contains(tok, "//")
  {
    forall k: nat | k <= |tok|
      ensures !OccursAt(tok, "//", k)
    {
      if k + 2 <= |tok| {
        assert tok[k..k + 2][0] == tok[k] && tok[k..k + 2][1] == tok[k + 1];
      }
    }
  }

  /** A token in which a number follows every slash has no "//". */
  lemma SlashThenNumber(a: string, n: nat)
    requires |a| > 0 && a[|a| - 1] != '/' && !Contains(a, "//")
    ensures !Contains(a + "/" + DecimalString(n), "//")
  {
    var tok := a + "/" + DecimalString(n);
    forall k | 0 <= k < |tok| - 1
      ensures tok[k] != '/' || tok[k + 1] != '/'
    {
      if k < |a| - 1 {
        if tok[k] == '/' && tok[k + 1] == '/' {
          assert OccursAt(a, "//", k) by { assert a[k..k + 2] == tok[k..k + 2]; }
        }
      } else if k >= |a| {
        assert tok[k + 1] == DecimalString(n)[k - |a|];
      }
    }
    NoDoubleSlash(tok);
  }

  lemma ParseNoSlash(tok: string, v: int)
    requires '/' !in tok && Atoi(tok) == v
    ensures ParseVertexToken(tok) == VertexIndex(v, 0, 0)
  {
    if Contains(tok, "//") {
      var k: nat :| k <= |tok| && OccursAt(tok, "//", k);
      assert tok[k..k + 2][0] == '/';
    }
  }

  lemma ParseOneSlash(tok: string, v: int, t: int)
    requires !Contains(tok, "//") && '/' in tok && '/' !in AfterSlash(tok)
    requires Atoi(tok) == v && Atoi(AfterSlash(tok)) == t
    ensures ParseVertexToken(tok) == VertexIndex(v, t, 0)
  {
  }

  lemma ParseTwoSlashes(tok: string, rest: string, v: int, t: int, n: int)
    requires !Contains(tok, "//") && '/' in tok && AfterSlash(tok) == rest && '/' in rest
    requires Atoi(tok) == v && Atoi(rest) == t && Atoi(AfterSlash(rest)) == n
    ensures ParseVertexToken(tok) == VertexIndex(v, t, n)
  {
  }

  lemma ParseDoubleSlash(tok: string, v: int, n: int)
    requires Contains(tok, "//") && '/' in tok && |AfterSlash(tok)| >= 1
    requires Atoi(tok) == v && Atoi(AfterSlash(tok)[1..]) == n
    ensures ParseVertexToken(tok) == VertexIndex(v, 0, n)
  {
  }

  /** "v" names only the vertex. */
  lemma ParseVertexOnly(v: nat)
    ensures ParseVertexToken(DecimalString(v)) == VertexIndex(v, 0, 0)
  {
    NoSlashInNumber(v);
    AtoiOfNumber(v);
    ParseNoSlash(DecimalString(v), v);
  }

  /** "v/t" names the vertex and the texture coordinate. */
  lemma ParseVertexTexture(v: nat, t: nat)
    ensures ParseVertexToken(DecimalString(v) + "/" + DecimalString(t)) == VertexIndex(v, t, 0)
  {
    var tok := DecimalString(v) + "/" + DecimalString(t);
    NoSlashInNumber(v);
    NoSlashInNumber(t);
    SlashThenNumber(DecimalString(v), t);
    AfterSlashOfPrefix(DecimalString(v), "/", DecimalString(t));
    assert "/"[1..] + DecimalString(t) == DecimalString(t);
    AtoiOfNumberThen(v, "/", DecimalString(t));
    AtoiOfNumber(t);
    ParseOneSlash(tok, v, t);
  }

  /** "v/t/n" names all three. */
  lemma ParseVertexTextureNormal(v: nat, t: nat, n: nat)
    ensures ParseVertexToken(DecimalString(v) + "/" + DecimalString(t) + "/" + DecimalString(n)) == VertexIndex(v, t, n)
  {
    var vt := DecimalString(v) + "/" + DecimalString(t);
    var rest := DecimalString(t) + "/" + DecimalString(n);
    var tok := vt + "/" + DecimalString(n);
    assert tok == DecimalString(v) + "/" + rest;
    NoSlashInNumber(v);
    NoSlashInNumber(t);
    SlashThenNumber(DecimalString(v), t);
    SlashThenNumber(vt, n);
    AfterSlashOfPrefix(DecimalString(v), "/", rest);
    AfterSlashOfPrefix(DecimalString(t), "/", DecimalString(n));
    assert "/"[1..] + rest == rest;
    assert "/"[1..] + DecimalString(n) == DecimalString(n);
    AtoiOfNumberThen(v, "/", rest);
    AtoiOfNumberThen(t, "/", DecimalString(n));
    AtoiOfNumber(n);
    ParseTwoSlashes(tok, rest, v, t, n);
  }

  /** "v//n" names the vertex and the normal; the texture stays 0. */
  lemma ParseVertexNormal(v: nat, n: nat)
    ensures ParseVertexToken(DecimalString(v) + "//" + DecimalString(n)) == VertexIndex(v, 0, n)
  {
    var tok := DecimalString(v) + "//" + DecimalString(n);
    var a := |DecimalString(v)|;
    assert tok[a..a + 2] == "//";
    assert OccursAt(tok, "//", a);
    NoSlashInNumber(v);
    AfterSlashOfPrefix(DecimalString(v), "//", DecimalString(n));
    assert ("//"[1..] + DecimalString(n))[1..] == DecimalString(n);
    AtoiOfNumberThen(v, "//", DecimalString(n));
    AtoiOfNumber(n);
    ParseDoubleSlash(tok, v, n);
  }

  /** wf_parse_vertex_index: every remaining token of an "f" line becomes one
      vertex, with texture and normal indices reset to 0 before parsing. The
      index arrays hold MaxVertexCount entries, and the source does not check
      that bound, so the model requires it. */
  method ParseVertexIndex(tokens: seq<string>) returns (vertexIndices: seq<int>, textureIndices: seq<int>, normalIndices: seq<int>)
    requires |tokens| <= MaxVertexCount
    ensures |vertexIndices| == |textureIndices| == |normalIndices| == |tokens|
    ensures forall k :: 0 <= k < |tokens| ==>
              ParseVertexToken(tokens[k]) == VertexIndex(vertexIndices[k], textureIndices[k], normalIndices[k])
  {
    vertexIndices, textureIndices, normalIndices := [], [], [];
    var vertexCount := 0;
    while vertexCount < |tokens|
      invariant vertexCount <= |tokens|
      invariant |vertexIndices| == |textureIndices| == |normalIndices| == vertexCount
      invariant forall k :: 0 <= k < vertexCount ==>
                  ParseVertexToken(tokens[k]) == VertexIndex(vertexIndices[k], textureIndices[k], normalIndices[k])
    {
      var ix := ParseVertexToken(tokens[vertexCount]);
      vertexIndices := vertexIndices + [ix.vertex];
      textureIndices := textureIndices + [ix.texture];
      normalIndices := normalIndices + [ix.normal];
      vertexCount := vertexCount + 1;
    }
  }

  /** wf_convert_index: asserts a positive 1-based index and makes it 0-based. */
  function ConvertIndex(index: int): (r: int)
    requires index > 0
    ensures r >= 0 && r + 1 == index
  {
    index - 1
  }

  /** wf_convert_indices: converts each index in turn. */
  method ConvertIndices(indices: seq<int>) returns (r: seq<int>)
    requires forall k :: 0 <= k < |indices| ==> indices[k] > 0
    ensures |r| == |indices|
    ensures forall k :: 0 <= k < |r| ==> r[k] >= 0 && r[k] + 1 == indices[k]
  {
    r := [];
    var i := 0;
    while i < |indices|
      invariant i <= |indices| && |r| == i
      invariant forall k :: 0 <= k < i ==> r[k] == ConvertIndex(indices[k])
    {
      r := r + [ConvertIndex(indices[i])];
      i := i + 1;
    }
  }

  /** A face line that passes every assert in wf_convert_index: each token
      names a positive vertex, texture and normal index. */
  predicate ConvertibleFace(tokens: seq<string>)
  {
    forall k :: 0 <= k < |tokens| ==>
      var ix := ParseVertexToken(tokens[k]);
      ix.vertex > 0 && ix.texture > 0 && ix.normal > 0
  }

  /** Faces written without texture coordinates or normals fail that assert:
      their missing indices parse as 0, so a "v", "v/t" or "v//n" face is never
      convertible, whatever its indices. */
  lemma PartialFacesAssert(v: nat, t: nat, n: nat)
    ensures !ConvertibleFace([DecimalString(v)])
    ensures !ConvertibleFace([DecimalString(v) + "/" + DecimalString(t)])
    ensures !ConvertibleFace([DecimalString(v) + "//" + DecimalString(n)])
  {
    ParseVertexOnly(v);
    MissingIndexAsserts(DecimalString(v));
    ParseVertexTexture(v, t);
    MissingIndexAsserts(DecimalString(v) + "/" + DecimalString(t));
    ParseVertexNormal(v, n);
    MissingIndexAsserts(DecimalString(v) + "//" + DecimalString(n));
  }

  /** A token missing its texture or its normal index makes the face fail. */
  lemma MissingIndexAsserts(tok: string)
    requires ParseVertexToken(tok).texture == 0 || ParseVertexToken(tok).normal == 0
    ensures !ConvertibleFace([tok])
  {
    assert [tok][0] == tok;
  }

  /** The face an "f" line denotes, in 0-based indices. */
  function FaceOf(tokens: seq<string>, material: int): (f: Face)
    requires ConvertibleFace(tokens)
    ensures |f.vertexIndices| == |f.textureIndices| == |f.normalIndices| == |tokens|
  {
    Face(seq(|tokens|, k requires 0 <= k < |tokens| => ParseVertexToken(tokens[k]).vertex - 1),
         seq(|tokens|, k requires 0 <= k < |tokens| => ParseVertexToken(tokens[k]).texture - 1),
         seq(|tokens|, k requires 0 <= k < |tokens| => ParseVertexToken(tokens[k]).normal - 1),
         material)
  }

  /** Total number of face vertices. */
  function VertexTotal(faces: seq<Face>): nat
  {
    if |faces| == 0 then 0 else VertexTotal(faces[..|faces| - 1]) + |faces[|faces| - 1].vertexIndices|
  }

  /** wf_parse_vector: missing components default to 0 and z is negated. */
  function ParseVector(tokens: seq<string>, atof: string -> real): (v: Vec3)
    ensures |tokens| >= 1 ==> v.x == atof(tokens[0])
    ensures |tokens| >= 2 ==> v.y == atof(tokens[1])
    ensures |tokens| >= 3 ==> v.z == -atof(tokens[2])
    ensures |tokens| < 3 ==> v.z == 0.0
    ensures |tokens| < 2 ==> v.y == 0.0
    ensures |tokens| < 1 ==> v.x == 0.0
  {
    if |tokens| == 0 then Vec3(0.0, 0.0, 0.0)
    else if |tokens| == 1 then Vec3(atof(tokens[0]), 0.0, 0.0)
    else if |tokens| == 2 then Vec3(atof(tokens[0]), atof(tokens[1]), 0.0)
    else Vec3(atof(tokens[0]), atof(tokens[1]), -atof(tokens[2]))
  }

  class ObjModel {
    var materials: seq<string>
    var faces: seq<Face>
    var faceCount: int
    var faceVertexCount: int
    var vertices: seq<Vec3>
    var normals: seq<Vec3>
    var texcoords: seq<Vec3>

    /** The counters agree with the lists they count. */
    ghost predicate Valid()
      reads this
    {
      faceCount == |faces| && faceVertexCount == VertexTotal(faces)
    }

    /** xpl_model_new: everything empty. */
    constructor ()
      ensures Valid()
      ensures materials == [] && faces == [] && vertices == [] && normals == [] && texcoords == []
    {
      materials, faces := [], [];
      faceCount, faceVertexCount := 0, 0;
      vertices, normals, texcoords := [], [], [];
    }

    /** wf_parse_face: parse and convert the indices, append the face with the
        current material, and count the face and its vertices. */
    method ParseFace(tokens: seq<string>, currentMaterial: int)
      requires |tokens| <= MaxVertexCount && ConvertibleFace(tokens)
      requires Valid()
      modifies this
      ensures Valid()
      ensures faces == old(faces) + [FaceOf(tokens, currentMaterial)]
      ensures faceCount == old(faceCount) + 1 && faceVertexCount == old(faceVertexCount) + |tokens|
      ensures materials == old(materials) && vertices == old(vertices)
      ensures normals == old(normals) && texcoords == old(texcoords)
    {
      var vertexIndices, textureIndices, normalIndices := ParseVertexIndex(tokens);
      var vi := ConvertIndices(vertexIndices);
      var ni := ConvertIndices(normalIndices);
      var ti := ConvertIndices(textureIndices);
      var face := Face(vi, ti, ni, currentMaterial);
      assert face == FaceOf(tokens, currentMaterial);
      faces := faces + [face];
      assert faces[..|faces| - 1] == old(faces);
      faceCount := faceCount + 1;
      faceVertexCount := faceVertexCount + |tokens|;
    }

    /** wf_find_material: the position of the first material with that name, else -1. */
    method FindMaterial(name: string) returns (index: int)
      ensures -1 <= index < |materials|
      ensures index >= 0 ==> materials[index] == name && name !in materials[..index]
      ensures index == -1 <==> name !in materials
    {
      index := 0;
      while index < |materials|
        invariant 0 <= index <= |materials|
        invariant name !in materials[..index]
      {
        if materials[index] == name {
          return;
        }
        index := index + 1;
      }
      assert materials[..index] == materials;
      index := -1;
    }

    /** One line of xpl_model_load_obj: "v", "vn" and "vt" append a vector,
        "f" adds a face, "usemtl" selects a material (-1 when unknown); the
        current material index is returned. Other commands change nothing
        here ("mtllib" reads a file and is not part of this model). */
    method LoadLine(tokens: seq<string>, currentMaterial: int, atof: string -> real) returns (material: int)
      requires Valid()
      requires |tokens| > 0 && tokens[0] == "f" ==> |tokens| - 1 <= MaxVertexCount && ConvertibleFace(tokens[1..])
      modifies this
      ensures Valid()
      ensures materials == old(materials)
      ensures vertices == old(vertices) + (if |tokens| > 0 && tokens[0] == "v" then [ParseVector(tokens[1..], atof)] else [])
      ensures normals == old(normals) + (if |tokens| > 0 && tokens[0] == "vn" then [ParseVector(tokens[1..], atof)] else [])
      ensures texcoords == old(texcoords) + (if |tokens| > 0 && tokens[0] == "vt" then [ParseVector(tokens[1..], atof)] else [])
      ensures faces == old(faces) + (if |tokens| > 0 && tokens[0] == "f" then [FaceOf(tokens[1..], currentMaterial)] else [])
      ensures material == if |tokens| > 1 && tokens[0] == "usemtl" then
                            (if tokens[1] in materials then IndexOfFirst(materials, tokens[1]) else -1)
                          else currentMaterial
    {
      material := currentMaterial;
      if |tokens| == 0 {
        return;
      }
      var command := tokens[0];
      if command == "v" {
        vertices := vertices + [ParseVector(tokens[1..], atof)];
      } else if command == "vn" {
        normals := normals + [ParseVector(tokens[1..], atof)];
      } else if command == "vt" {
        texcoords := texcoords + [ParseVector(tokens[1..], atof)];
      } else if command == "f" {
        ParseFace(tokens[1..], currentMaterial);
      } else if command == "usemtl" && |tokens| > 1 {
        material := FindMaterial(tokens[1]);
        if material >= 0 {
          FirstIndexUnique(materials, tokens[1], material);
        }
      }
    }
  }

  /** The position of the first occurrence of `x` in `xs`. */
  function IndexOfFirst(xs: seq<string>, x: string): (i: nat)
    requires x in xs
    ensures i < |xs| && xs[i] == x && x !in xs[..i]
  {
    if xs[0] == x then 0
    else
      assert xs == [xs[0]] + xs[1..];
      1 + IndexOfFirst(xs[1..], x)
  }

  lemma FirstIndexUnique(xs: seq<string>, x: string, i: nat)
    requires i < |xs| && xs[i] == x && x !in xs[..i]
    ensures IndexOfFirst(xs, x) == i
  {
  }
}

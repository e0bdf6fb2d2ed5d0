/** The helpers of s3tethys/utils.py: the public-bucket URL of an object and
    the size of a seekable file object. */
module Utils {
  import opened Values

  /** Python's `s.rstrip('/')`: drops every trailing `/` and nothing else. */
  function RStripSlashes(s: string): (r: string)
    ensures r <= s
    ensures r == [] || r[|r| - 1] != '/'
    ensures forall i :: |r| <= i < |s| ==> s[i] == '/'
    decreases |s|
  {
    if s != [] && s[|s| - 1] == '/' then RStripSlashes(s[..|s| - 1]) else s
  }

  /** The three properties above pin the stripped string down. */
  lemma RStripSlashesUnique(s: string, r: string)
    requires r <= s
    requires r == [] || r[|r| - 1] != '/'
    requires forall i :: |r| <= i < |s| ==> s[i] == '/'
    ensures r == RStripSlashes(s)
  {
  }

  predicate OccursAt(s: string, sub: string, i: int) {
    0 <= i <= |s| - |sub| && s[i..i + |sub|] == sub
  }

  /** Python's `sub in s` for strings: a case-sensitive substring test. */
  function Contains(s: string, sub: string): bool
    decreases |s|
  {
    if |s| < |sub| then false
    else if sub <= s then true
    else Contains(s[1..], sub)
  }

  lemma {:induction false} ContainsIff(s: string, sub: string)
    ensures Contains(s, sub) <==> exists i :: OccursAt(s, sub, i)
    decreases |s|
  {
    if |s| >= |sub| && !(sub <= s) {
      ContainsIff(s[1..], sub);
      if Contains(s, sub) {
        var i :| OccursAt(s[1..], sub, i);
        assert s[i + 1..i + 1 + |sub|] == s[1..][i..i + |sub|];
        assert OccursAt(s, sub, i + 1);
      }
      if exists i :: OccursAt(s, sub, i) {
        assert s[..|sub|] != sub;
        var i :| OccursAt(s, sub, i);
        assert s[1..][i - 1..i - 1 + |sub|] == s[i..i + |sub|];
        assert OccursAt(s[1..], sub, i - 1);
      }
    } else if sub <= s {
      assert OccursAt(s, sub, 0);
    }
  }

  /** The provider whose public URLs join base and bucket with `:`. */
  const ContaboMarker: string := "contabo"

  /** `create_public_s3_url`: the public URL of `objKey` in `bucket`. */
  function CreatePublicS3Url(baseUrl: string, bucket: string, objKey: string): (url: string)
    ensures var b := RStripSlashes(baseUrl);
      && |url| == |b| + 1 + |bucket| + 1 + |objKey|
      && url[..|b|] == b
      && url[|b|] == (if Contains(baseUrl, ContaboMarker) then ':' else '/')
      && url[|b| + 1..|b| + 1 + |bucket|] == bucket
      && url[|b| + 1 + |bucket|] == '/'
      && url[|b| + 2 + |bucket|..] == objKey
  {
    var base := RStripSlashes(baseUrl);
    if Contains(baseUrl, ContaboMarker) then base + ":" + bucket + "/" + objKey
    else base + "/" + bucket + "/" + objKey
  }

  /** The provider test looks at the whole base URL, path included, not only the host. */
  lemma ContaboAnywhereInBase(prefix: string, suffix: string, bucket: string, objKey: string)
    ensures var baseUrl := prefix + ContaboMarker + suffix;
      CreatePublicS3Url(baseUrl, bucket, objKey)[|RStripSlashes(baseUrl)|] == ':'
  {
    var baseUrl := prefix + ContaboMarker + suffix;
    assert OccursAt(baseUrl, ContaboMarker, |prefix|);
    ContainsIff(baseUrl, ContaboMarker);
  }

  /** A base URL in which `contabo` occurs nowhere gets the `/` form. */
  lemma NoContaboMeansSlash(baseUrl: string, bucket: string, objKey: string)
    requires forall i :: !OccursAt(baseUrl, ContaboMarker, i)
    ensures CreatePublicS3Url(baseUrl, bucket, objKey)[|RStripSlashes(baseUrl)|] == '/'
  {
    ContainsIff(baseUrl, ContaboMarker);
  }

  /** An instance: the provider test compares characters exactly, so an
      upper-case `CONTABO` base gets the `/` form. */
  lemma ContaboMatchIsCaseSensitive()
    ensures CreatePublicS3Url("CONTABO", "b", "k") == "CONTABO/b/k"
  {
    forall i ensures !OccursAt("CONTABO", ContaboMarker, i) {
      if 0 <= i <= 0 {
        assert "CONTABO"[i..i + 7][0] != ContaboMarker[0];
      }
    }
    NoContaboMeansSlash("CONTABO", "b", "k");
    assert RStripSlashes("CONTABO") == "CONTABO";
  }

  /** A Python file object opened for binary reading: its bytes and its stream position. */
  class SeekableFile {
    const data: seq<byte>
    var pos: nat

    constructor (data: seq<byte>, pos: nat)
      ensures this.data == data && this.pos == pos
    {
      this.data := data;
      this.pos := pos;
    }

    /** `tell()` */
    method Tell() returns (p: nat)
      ensures p == pos
    {
      p := pos;
    }

    /** `seek(0, io.SEEK_END)` */
    method SeekEnd()
      modifies this
      ensures pos == |data|
    {
      pos := |data|;
    }

    /** `seek(p)`; a position past the end is allowed. */
    method Seek(p: nat)
      modifies this
      ensures pos == p
    {
      pos := p;
    }
  }

  /** `determine_file_obj_size`: the length of the file, whatever the position
      it starts from, leaving the position where it was. */
  method DetermineFileObjSize(f: SeekableFile) returns (size: nat)
    modifies f
    ensures size == |f.data|
    ensures f.pos == old(f.pos)
  {
    var p := f.Tell();
    f.SeekEnd();
    size := f.Tell();
    f.Seek(p);
  }
}

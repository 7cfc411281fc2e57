/** The Vault KV version 2 adapter of `mcp-acme/adapters/vault.py`: the
    normalisation of a user-supplied secret path and the URL that `read` and
    `write` address. */
module Vault {
  import opened Text

  const V1Prefix := "v1/"
  const DataPrefix := "secret/data/"

  /** `(path or "").strip().lstrip("/")`. */
  function Trimmed(path: string): string {
    DropLeading(Strip(path), '/')
  }

  /** `_normalize_kv2`: trims the path and its leading slashes, then cuts at
      most one `v1/` and after it at most one `secret/data/`. */
  function NormalizeKv2(path: string): (r: string)
    ensures IsSuffix(r, Trimmed(path))
  {
    CutPrefixes(Trimmed(path))
  }

  /** The two prefix cuts of `_normalize_kv2`, in their order. */
  function CutPrefixes(p: string): (r: string)
    ensures IsSuffix(r, p)
  {
    var q := if StartsWith(p, V1Prefix) then p[|V1Prefix|..] else p;
    if StartsWith(q, DataPrefix) then q[|DataPrefix|..] else q
  }

  /** What is cut off is exactly the prefixes that are present, in that
      order: the trimmed path is the cut prefixes followed by the result. */
  lemma NormalizeKv2Cuts(path: string)
    ensures var p := Trimmed(path);
            var q := if StartsWith(p, V1Prefix) then p[|V1Prefix|..] else p;
            && p == (if StartsWith(p, V1Prefix) then V1Prefix else "") + q
            && q == (if StartsWith(q, DataPrefix) then DataPrefix else "") + NormalizeKv2(path)
  {
    var p := Trimmed(path);
    var q := if StartsWith(p, V1Prefix) then p[|V1Prefix|..] else p;
    if StartsWith(p, V1Prefix) {
      assert p == p[..|V1Prefix|] + q;
    }
    if StartsWith(q, DataPrefix) {
      assert q == q[..|DataPrefix|] + NormalizeKv2(path);
    }
  }

  /** The trimmed path never starts with a slash. */
  lemma TrimmedHasNoLeadingSlash(path: string)
    ensures Trimmed(path) == [] || Trimmed(path)[0] != '/'
  {
  }

  /** A path piece with no whitespace at its ends and no leading slash. */
  predicate Clean(p: string) {
    p != [] && p[0] != '/' && !IsSpace(p[0]) && !IsSpace(p[|p| - 1])
  }

  lemma TrimmedClean(p: string)
    requires Clean(p)
    ensures Trimmed(p) == p && Trimmed("/" + p) == p
  {
    StripUnchanged(p);
    StripUnchanged("/" + p);
    assert ("/" + p)[1..] == p;
  }

  lemma CutPrefix(a: string, b: string)
    ensures StartsWith(a + b, a) && (a + b)[|a|..] == b
  {
    assert (a + b)[..|a|] == a;
  }

  lemma NotPrefix(s: string, a: string)
    requires s != [] && a != [] && s[0] != a[0]
    ensures !StartsWith(s, a)
  {
  }

  /** A leaf that starts with neither prefix is kept. */
  lemma CutNothing(leaf: string)
    requires leaf == [] || (leaf[0] != 'v' && leaf[0] != 's')
    ensures CutPrefixes(leaf) == leaf
  {
    if leaf != [] {
      NotPrefix(leaf, V1Prefix);
      NotPrefix(leaf, DataPrefix);
    }
  }

  /** `secret/data/` alone is cut, whatever follows it. */
  lemma CutData(leaf: string)
    ensures CutPrefixes(DataPrefix + leaf) == leaf
  {
    NotPrefix(DataPrefix + leaf, V1Prefix);
    CutPrefix(DataPrefix, leaf);
  }

  /** `v1/secret/data/` is cut as a whole, whatever follows it. */
  lemma CutBoth(leaf: string)
    ensures CutPrefixes(V1Prefix + (DataPrefix + leaf)) == leaf
  {
    CutPrefix(V1Prefix, DataPrefix + leaf);
    CutPrefix(DataPrefix, leaf);
  }

  /** Only one `v1/` is cut: a second one survives. */
  lemma CutOneV1(leaf: string)
    ensures CutPrefixes(V1Prefix + (V1Prefix + leaf)) == V1Prefix + leaf
  {
    CutPrefix(V1Prefix, V1Prefix + leaf);
    NotPrefix(V1Prefix + leaf, DataPrefix);
  }

  /** `v1/` is only cut in front of `secret/data/`, so after `secret/data/`
      it survives, and normalising a second time cuts it: `_normalize_kv2`
      is not idempotent. */
  lemma CutDataThenV1(leaf: string)
    requires leaf == [] || (leaf[0] != 'v' && leaf[0] != 's')
    ensures CutPrefixes(DataPrefix + (V1Prefix + leaf)) == V1Prefix + leaf
    ensures CutPrefixes(V1Prefix + leaf) == leaf
  {
    CutData(V1Prefix + leaf);
    CutPrefix(V1Prefix, leaf);
    if leaf != [] {
      NotPrefix(leaf, DataPrefix);
    }
  }

  lemma NotIdempotent(leaf: string)
    requires Clean(leaf) && leaf[0] != 'v' && leaf[0] != 's'
    ensures NormalizeKv2(DataPrefix + (V1Prefix + leaf)) == V1Prefix + leaf
    ensures NormalizeKv2(NormalizeKv2(DataPrefix + (V1Prefix + leaf))) == leaf
  {
    var v := V1Prefix + leaf;
    assert Clean(DataPrefix + v) && Clean(v);
    TrimmedClean(DataPrefix + v);
    TrimmedClean(v);
    CutDataThenV1(leaf);
  }

  /** The four shapes the docstring of `_normalize_kv2` lists, for any leaf
      that does not itself start with one of the two prefixes: a bare leaf,
      `/secret/data/` + leaf, `v1/secret/data/` + leaf and
      `/v1/secret/data/` + leaf all normalise to the leaf. */
  lemma DocumentedShapes(leaf: string)
    requires Clean(leaf) && !StartsWith(leaf, V1Prefix) && !StartsWith(leaf, DataPrefix)
    ensures NormalizeKv2(leaf) == leaf
    ensures NormalizeKv2("/" + DataPrefix + leaf) == leaf
    ensures NormalizeKv2(V1Prefix + DataPrefix + leaf) == leaf
    ensures NormalizeKv2("/" + V1Prefix + DataPrefix + leaf) == leaf
  {
    var d := DataPrefix + leaf;
    var v := V1Prefix + d;
    assert Clean(d) && Clean(v);
    TrimmedClean(leaf);
    TrimmedClean(d);
    TrimmedClean(v);
    CutData(leaf);
    CutBoth(leaf);
    Assoc("/", DataPrefix, leaf);
    Assoc(V1Prefix, DataPrefix, leaf);
    Assoc("/", V1Prefix, DataPrefix);
    Assoc("/" + V1Prefix, DataPrefix, leaf);
    Assoc("/", V1Prefix, d);
  }

  lemma Assoc(a: string, b: string, c: string)
    ensures a + b + c == a + (b + c)
  {
  }

  /** The leaf of the docstring examples. */
  const DocLeaf := "tls/mpwlabs.com"

  /** The docstring examples themselves: `tls/mpwlabs.com`,
      `/secret/data/tls/mpwlabs.com`, `v1/secret/data/tls/mpwlabs.com` and
      `/v1/secret/data/tls/mpwlabs.com` all give `tls/mpwlabs.com`. */
  lemma NormalizeKv2DocExamples()
    ensures NormalizeKv2(DocLeaf) == DocLeaf
    ensures NormalizeKv2("/" + DataPrefix + DocLeaf) == DocLeaf
    ensures NormalizeKv2(V1Prefix + DataPrefix + DocLeaf) == DocLeaf
    ensures NormalizeKv2("/" + V1Prefix + DataPrefix + DocLeaf) == DocLeaf
  {
    DocumentedShapes(DocLeaf);
  }

  const UrlInfix := "/v1/secret/data/"

  /** The URL `Vault.read` and `Vault.write` both send to. */
  function SecretUrl(base: string, path: string): (url: string)
    ensures |url| == |base| + |UrlInfix| + |NormalizeKv2(path)|
  {
    base + UrlInfix + NormalizeKv2(path)
  }

  /** Two paths address the same secret exactly when they normalise to the
      same leaf. */
  lemma SameSecretIffSameLeaf(base: string, p1: string, p2: string)
    ensures SecretUrl(base, p1) == SecretUrl(base, p2) <==> NormalizeKv2(p1) == NormalizeKv2(p2)
  {
    var n := |base| + |UrlInfix|;
    if SecretUrl(base, p1) == SecretUrl(base, p2) {
      assert SecretUrl(base, p1)[n..] == NormalizeKv2(p1);
      assert SecretUrl(base, p2)[n..] == NormalizeKv2(p2);
    }
  }
}

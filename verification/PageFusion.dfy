/** Fusion under the key the program really uses: a hash of the canonical URL. */
module PageFusion {
  import opened Common
  import opened Ordering
  import opened Fusion
  import opened WebFusion
  import opened WebFusionLaws
  import opened CanonicalUrl
  import opened CanonicalUrlLaws

  /** The hash is arbitrary. */
  function PageKey(lib: Library, hash: string -> string): KeyOf {
    (raw: string) => hash(Canonical(lib, raw))
  }

  /** Both texts parse, with an authority and a path, to the same page. */
  ghost predicate SamePageText(lib: Library, a: string, b: string) {
    && lib.parse(a).Some? && lib.parse(a).value.authority.Some? && lib.parse(a).value.path != ""
    && lib.parse(b).Some? && lib.parse(b).value.authority.Some? && lib.parse(b).value.path != ""
    && SamePage(lib, lib.parse(a).value, lib.parse(b).value)
  }

  /** The fused ranking never lists the same page twice, however its URLs were spelled. */
  lemma NoPageTwice(lib: Library, hash: string -> string, outputs: seq<SubQuery>, k: nat, out: seq<Item>, i: nat, j: nat)
    requires Splits(lib)
    requires StrictlySorted(RankBefore, out)
    requires forall x :: x in out <==> x in FusedItems(PageKey(lib, hash), outputs, k)
    requires i < j < |out|
    ensures !SamePageText(lib, out[i].url, out[j].url)
  {
    hide FusedItems, RankBefore, Splits, SamePage, Canonical;
    var key := PageKey(lib, hash);
    RankedKeysAreDistinct(key, outputs, k, out);
    assert ItemKeys(key, out)[i] != ItemKeys(key, out)[j];
    if SamePageText(lib, out[i].url, out[j].url) {
      EqualFormsExactlyForSamePage(lib, out[i].url, lib.parse(out[i].url).value, out[j].url, lib.parse(out[j].url).value);
    }
  }

  /** Rows of one page are always fused; rows of different pages only if the hash collides. */
  lemma RowsFuseByPage(lib: Library, hash: string -> string, a: string, b: string)
    requires Splits(lib)
    requires lib.parse(a).Some? && lib.parse(a).value.authority.Some? && lib.parse(a).value.path != ""
    requires lib.parse(b).Some? && lib.parse(b).value.authority.Some? && lib.parse(b).value.path != ""
    requires hash(Canonical(lib, a)) == hash(Canonical(lib, b)) ==> Canonical(lib, a) == Canonical(lib, b)
    ensures PageKey(lib, hash)(a) == PageKey(lib, hash)(b) <==> SamePageText(lib, a, b)
  {
    hide Splits, SamePage, Canonical;
    EqualFormsExactlyForSamePage(lib, a, lib.parse(a).value, b, lib.parse(b).value);
  }
}

/** The landing page's content schema (`LandingPageSchema` and its parts):
    records of strings with length bounds, CTA links that must be URLs, and
    exactly three feature and trust items. Lengths count UTF-16 code units,
    one `char` each. Whether a string is a URL is the parameter `isUrl`. */
module Landing {
  import opened Wrappers
  import opened Json

  /** A CTA button; `text` is the `label` field. */
  datatype Cta = Cta(text: string, href: string)
  datatype Hero = Hero(badge: string, title: string, body: string, primaryCta: Cta, helperText: string)
  /** A feature item and a trust item have the same fields and bounds. */
  datatype Item = Item(emoji: string, title: string, body: string)
  datatype Features = Features(title: string, items: seq<Item>)
  datatype Trust = Trust(items: seq<Item>)
  datatype FinalCta = FinalCta(title: string, body: string, cta: Cta)
  datatype Footer = Footer(tagline: string)
  datatype Page = Page(hero: Hero, features: Features, trust: Trust, finalCta: FinalCta, footer: Footer)

  // ---------------------------------------------------------------------------
  // What the schemas accept

  /** `z.string().min(lo).max(hi)` on a string. */
  predicate Within(s: string, lo: nat, hi: nat) {
    lo <= |s| <= hi
  }

  predicate ValidCta(c: Cta, isUrl: string -> bool) {
    Within(c.text, 1, 40) && isUrl(c.href)
  }

  predicate ValidHero(h: Hero, isUrl: string -> bool) {
    && Within(h.badge, 1, 80)
    && Within(h.title, 1, 80)
    && Within(h.body, 10, 800)
    && ValidCta(h.primaryCta, isUrl)
    && Within(h.helperText, 1, 200)
  }

  predicate ValidItem(i: Item) {
    Within(i.emoji, 1, 4) && Within(i.title, 1, 60) && Within(i.body, 10, 400)
  }

  /** `z.tuple([S, S, S])`: exactly three items, each valid. */
  predicate ValidTriple(items: seq<Item>) {
    |items| == 3 && forall k :: 0 <= k < |items| ==> ValidItem(items[k])
  }

  predicate ValidFeatures(f: Features) {
    Within(f.title, 1, 60) && ValidTriple(f.items)
  }

  predicate ValidTrust(t: Trust) {
    ValidTriple(t.items)
  }

  predicate ValidFinalCta(f: FinalCta, isUrl: string -> bool) {
    Within(f.title, 1, 80) && Within(f.body, 10, 400) && ValidCta(f.cta, isUrl)
  }

  predicate ValidFooter(f: Footer) {
    Within(f.tagline, 1, 200)
  }

  predicate ValidPage(p: Page, isUrl: string -> bool) {
    && ValidHero(p.hero, isUrl)
    && ValidFeatures(p.features)
    && ValidTrust(p.trust)
    && ValidFinalCta(p.finalCta, isUrl)
    && ValidFooter(p.footer)
  }

  // ---------------------------------------------------------------------------
  // Parsing JSON content (`LandingPageSchema.parse`); unknown keys are dropped

  /** A string member within the bounds. */
  function BoundedMember(v: Value, key: string, lo: nat, hi: nat): (r: Option<string>)
    ensures r.Some? <==> Member(v, key).Some? && Member(v, key).value.Str? && Within(Member(v, key).value.s, lo, hi)
    ensures r.Some? ==> r.value == v.fields[key].s
  {
    var m := Member(v, key);
    if m.Some? && m.value.Str? && Within(m.value.s, lo, hi) then Some(m.value.s) else None
  }

  function ParseCta(v: Value, isUrl: string -> bool): (r: Option<Cta>)
    ensures r.Some? ==> ValidCta(r.value, isUrl)
    ensures r.Some? <==>
      && BoundedMember(v, "label", 1, 40).Some?
      && Member(v, "href").Some? && Member(v, "href").value.Str? && isUrl(Member(v, "href").value.s)
    ensures r.Some? ==> r.value.text == v.fields["label"].s && r.value.href == v.fields["href"].s
  {
    var text := BoundedMember(v, "label", 1, 40);
    var href := Member(v, "href");
    if text.Some? && href.Some? && href.value.Str? && isUrl(href.value.s) then Some(Cta(text.value, href.value.s))
    else None
  }

  function ParseHero(v: Value, isUrl: string -> bool): (r: Option<Hero>)
    ensures r.Some? ==> ValidHero(r.value, isUrl)
    ensures r.Some? <==>
      && BoundedMember(v, "badge", 1, 80).Some?
      && BoundedMember(v, "title", 1, 80).Some?
      && BoundedMember(v, "body", 10, 800).Some?
      && Member(v, "primaryCta").Some? && ParseCta(v.fields["primaryCta"], isUrl).Some?
      && BoundedMember(v, "helperText", 1, 200).Some?
  {
    var badge := BoundedMember(v, "badge", 1, 80);
    var title := BoundedMember(v, "title", 1, 80);
    var body := BoundedMember(v, "body", 10, 800);
    var cta := if Member(v, "primaryCta").Some? then ParseCta(v.fields["primaryCta"], isUrl) else None;
    var helper := BoundedMember(v, "helperText", 1, 200);
    if badge.Some? && title.Some? && body.Some? && cta.Some? && helper.Some? then
      Some(Hero(badge.value, title.value, body.value, cta.value, helper.value))
    else None
  }

  function ParseItem(v: Value): (r: Option<Item>)
    ensures r.Some? ==> ValidItem(r.value)
    ensures r.Some? <==>
      && BoundedMember(v, "emoji", 1, 4).Some?
      && BoundedMember(v, "title", 1, 60).Some?
      && BoundedMember(v, "body", 10, 400).Some?
  {
    var emoji := BoundedMember(v, "emoji", 1, 4);
    var title := BoundedMember(v, "title", 1, 60);
    var body := BoundedMember(v, "body", 10, 400);
    if emoji.Some? && title.Some? && body.Some? then Some(Item(emoji.value, title.value, body.value)) else None
  }

  /** A three-element tuple of items: an array of exactly three valid items. */
  function ParseTriple(v: Value): (r: Option<seq<Item>>)
    ensures r.Some? ==> ValidTriple(r.value)
    ensures r.Some? <==> v.Arr? && |v.items| == 3 && forall k :: 0 <= k < 3 ==> ParseItem(v.items[k]).Some?
    ensures r.Some? ==> forall k :: 0 <= k < 3 ==> Some(r.value[k]) == ParseItem(v.items[k])
  {
    if v.Arr? && |v.items| == 3 then
      var a, b, c := ParseItem(v.items[0]), ParseItem(v.items[1]), ParseItem(v.items[2]);
      if a.Some? && b.Some? && c.Some? then Some([a.value, b.value, c.value]) else None
    else None
  }

  function ParseFeatures(v: Value): (r: Option<Features>)
    ensures r.Some? ==> ValidFeatures(r.value)
    ensures r.Some? <==>
      BoundedMember(v, "title", 1, 60).Some? && Member(v, "items").Some? && ParseTriple(v.fields["items"]).Some?
  {
    var title := BoundedMember(v, "title", 1, 60);
    var items := if Member(v, "items").Some? then ParseTriple(v.fields["items"]) else None;
    if title.Some? && items.Some? then Some(Features(title.value, items.value)) else None
  }

  function ParseTrust(v: Value): (r: Option<Trust>)
    ensures r.Some? ==> ValidTrust(r.value)
    ensures r.Some? <==> Member(v, "items").Some? && ParseTriple(v.fields["items"]).Some?
  {
    var items := if Member(v, "items").Some? then ParseTriple(v.fields["items"]) else None;
    if items.Some? then Some(Trust(items.value)) else None
  }

  function ParseFinalCta(v: Value, isUrl: string -> bool): (r: Option<FinalCta>)
    ensures r.Some? ==> ValidFinalCta(r.value, isUrl)
    ensures r.Some? <==>
      && BoundedMember(v, "title", 1, 80).Some?
      && BoundedMember(v, "body", 10, 400).Some?
      && Member(v, "cta").Some? && ParseCta(v.fields["cta"], isUrl).Some?
  {
    var title := BoundedMember(v, "title", 1, 80);
    var body := BoundedMember(v, "body", 10, 400);
    var cta := if Member(v, "cta").Some? then ParseCta(v.fields["cta"], isUrl) else None;
    if title.Some? && body.Some? && cta.Some? then Some(FinalCta(title.value, body.value, cta.value)) else None
  }

  function ParseFooter(v: Value): (r: Option<Footer>)
    ensures r.Some? ==> ValidFooter(r.value)
    ensures r.Some? <==> BoundedMember(v, "tagline", 1, 200).Some?
  {
    var tagline := BoundedMember(v, "tagline", 1, 200);
    if tagline.Some? then Some(Footer(tagline.value)) else None
  }

  /** `LandingPageSchema.parse`: `None` where zod throws. */
  function ParsePage(v: Value, isUrl: string -> bool): (r: Option<Page>)
    ensures r.Some? ==> ValidPage(r.value, isUrl)
    ensures r.Some? <==>
      && Member(v, "hero").Some? && ParseHero(v.fields["hero"], isUrl).Some?
      && Member(v, "features").Some? && ParseFeatures(v.fields["features"]).Some?
      && Member(v, "trust").Some? && ParseTrust(v.fields["trust"]).Some?
      && Member(v, "finalCta").Some? && ParseFinalCta(v.fields["finalCta"], isUrl).Some?
      && Member(v, "footer").Some? && ParseFooter(v.fields["footer"]).Some?
  {
    var hero := if Member(v, "hero").Some? then ParseHero(v.fields["hero"], isUrl) else None;
    var features := if Member(v, "features").Some? then ParseFeatures(v.fields["features"]) else None;
    var trust := if Member(v, "trust").Some? then ParseTrust(v.fields["trust"]) else None;
    var finalCta := if Member(v, "finalCta").Some? then ParseFinalCta(v.fields["finalCta"], isUrl) else None;
    var footer := if Member(v, "footer").Some? then ParseFooter(v.fields["footer"]) else None;
    if hero.Some? && features.Some? && trust.Some? && finalCta.Some? && footer.Some? then
      Some(Page(hero.value, features.value, trust.value, finalCta.value, footer.value))
    else None
  }

  // ---------------------------------------------------------------------------
  // Writing content as JSON

  function EncodeCta(c: Cta): Value {
    Obj(map["label" := Str(c.text), "href" := Str(c.href)])
  }

  function EncodeHero(h: Hero): Value {
    Obj(map["badge" := Str(h.badge), "title" := Str(h.title), "body" := Str(h.body),
            "primaryCta" := EncodeCta(h.primaryCta), "helperText" := Str(h.helperText)])
  }

  function EncodeItem(i: Item): Value {
    Obj(map["emoji" := Str(i.emoji), "title" := Str(i.title), "body" := Str(i.body)])
  }

  function EncodeItems(items: seq<Item>): (v: Value)
    ensures v.Arr? && |v.items| == |items|
    ensures forall k :: 0 <= k < |items| ==> v.items[k] == EncodeItem(items[k])
  {
    Arr(seq(|items|, k requires 0 <= k < |items| => EncodeItem(items[k])))
  }

  function EncodeFeatures(f: Features): Value {
    Obj(map["title" := Str(f.title), "items" := EncodeItems(f.items)])
  }

  function EncodeTrust(t: Trust): Value {
    Obj(map["items" := EncodeItems(t.items)])
  }

  function EncodeFinalCta(f: FinalCta): Value {
    Obj(map["title" := Str(f.title), "body" := Str(f.body), "cta" := EncodeCta(f.cta)])
  }

  function EncodeFooter(f: Footer): Value {
    Obj(map["tagline" := Str(f.tagline)])
  }

  function EncodePage(p: Page): Value {
    Obj(map[
      "hero" := EncodeHero(p.hero),
      "features" := EncodeFeatures(p.features),
      "trust" := EncodeTrust(p.trust),
      "finalCta" := EncodeFinalCta(p.finalCta),
      "footer" := EncodeFooter(p.footer)])
  }

  // ---------------------------------------------------------------------------
  // Properties

  /** An item parses back to itself exactly when it is valid. */
  lemma ItemRoundTrip(i: Item)
    ensures ParseItem(EncodeItem(i)) == if ValidItem(i) then Some(i) else None
  {
    var v := EncodeItem(i);
    assert v.fields["emoji"] == Str(i.emoji) && v.fields["title"] == Str(i.title) && v.fields["body"] == Str(i.body);
  }

  /** Items parse back exactly when there are three and each is valid. */
  lemma TripleRoundTrip(items: seq<Item>)
    ensures ParseTriple(EncodeItems(items)) == if ValidTriple(items) then Some(items) else None
  {
    if |items| == 3 {
      ItemRoundTrip(items[0]);
      ItemRoundTrip(items[1]);
      ItemRoundTrip(items[2]);
      if ValidTriple(items) {
        assert [items[0], items[1], items[2]] == items;
      }
    }
  }

  lemma CtaRoundTrip(c: Cta, isUrl: string -> bool)
    ensures ParseCta(EncodeCta(c), isUrl) == if ValidCta(c, isUrl) then Some(c) else None
  {
    var v := EncodeCta(c);
    assert v.fields["label"] == Str(c.text) && v.fields["href"] == Str(c.href);
  }

  lemma HeroRoundTrip(h: Hero, isUrl: string -> bool)
    ensures ParseHero(EncodeHero(h), isUrl) == if ValidHero(h, isUrl) then Some(h) else None
  {
    var v := EncodeHero(h);
    assert v.fields["primaryCta"] == EncodeCta(h.primaryCta);
    assert v.fields["badge"] == Str(h.badge) && v.fields["title"] == Str(h.title);
    assert v.fields["body"] == Str(h.body) && v.fields["helperText"] == Str(h.helperText);
    CtaRoundTrip(h.primaryCta, isUrl);
  }

  lemma FeaturesRoundTrip(f: Features)
    ensures ParseFeatures(EncodeFeatures(f)) == if ValidFeatures(f) then Some(f) else None
  {
    var v := EncodeFeatures(f);
    assert v.fields["title"] == Str(f.title) && v.fields["items"] == EncodeItems(f.items);
    TripleRoundTrip(f.items);
  }

  lemma TrustRoundTrip(t: Trust)
    ensures ParseTrust(EncodeTrust(t)) == if ValidTrust(t) then Some(t) else None
  {
    var v := EncodeTrust(t);
    assert v.fields["items"] == EncodeItems(t.items);
    TripleRoundTrip(t.items);
  }

  lemma FinalCtaRoundTrip(f: FinalCta, isUrl: string -> bool)
    ensures ParseFinalCta(EncodeFinalCta(f), isUrl) == if ValidFinalCta(f, isUrl) then Some(f) else None
  {
    var v := EncodeFinalCta(f);
    assert v.fields["title"] == Str(f.title) && v.fields["body"] == Str(f.body);
    assert v.fields["cta"] == EncodeCta(f.cta);
    CtaRoundTrip(f.cta, isUrl);
  }

  /** The content parses back to itself exactly when every one of the five
      sections is valid, and is rejected otherwise. */
  lemma PageRoundTrip(p: Page, isUrl: string -> bool)
    ensures ParsePage(EncodePage(p), isUrl) == if ValidPage(p, isUrl) then Some(p) else None
  {
    EncodePageMembers(p);
    HeroRoundTrip(p.hero, isUrl);
    FeaturesRoundTrip(p.features);
    TrustRoundTrip(p.trust);
    FinalCtaRoundTrip(p.finalCta, isUrl);
    FooterRoundTrip(p.footer);
  }

  /** The encoded page holds each section's encoding under its key. */
  lemma EncodePageMembers(p: Page)
    ensures var v := EncodePage(p);
            && v.Obj?
            && Member(v, "hero") == Some(EncodeHero(p.hero)) && v.fields["hero"] == EncodeHero(p.hero)
            && Member(v, "features") == Some(EncodeFeatures(p.features)) && v.fields["features"] == EncodeFeatures(p.features)
            && Member(v, "trust") == Some(EncodeTrust(p.trust)) && v.fields["trust"] == EncodeTrust(p.trust)
            && Member(v, "finalCta") == Some(EncodeFinalCta(p.finalCta)) && v.fields["finalCta"] == EncodeFinalCta(p.finalCta)
            && Member(v, "footer") == Some(EncodeFooter(p.footer)) && v.fields["footer"] == EncodeFooter(p.footer)
  {
  }

  lemma FooterRoundTrip(f: Footer)
    ensures ParseFooter(EncodeFooter(f)) == if ValidFooter(f) then Some(f) else None
  {
    assert EncodeFooter(f).fields["tagline"] == Str(f.tagline);
  }

  /** Extra keys in a section object are ignored: a CTA with more fields
      parses to the same button. */
  lemma CtaIgnoresExtraKeys(c: Cta, extra: map<string, Value>, isUrl: string -> bool)
    requires "label" !in extra && "href" !in extra
    ensures ParseCta(Obj(EncodeCta(c).fields + extra), isUrl) == ParseCta(EncodeCta(c), isUrl)
  {
    var v := Obj(EncodeCta(c).fields + extra);
    assert v.fields["label"] == Str(c.text) && v.fields["href"] == Str(c.href);
  }
}

/**
 * The product card of `display_product` (components.py:51-119): the text of
 * the first retrieved document is parsed into a record, then a fixed
 * sequence of blocks is written to the surface. Every required field is
 * looked up just before the block that shows it; a missing one raises, so
 * the card stops there with the earlier blocks already on the page.
 */
module CardRenderer {
  import Text
  import opened RecordParser
  import opened StockPolicy
  import opened Display

  const LeadIn: string := "以下の商品をご提案いたします。"
  const RecommendHeading: string := "**こんな方におすすめ！**"
  const LinkCaption: string := "商品ページを開く"
  const ProductPageUrl: string := "https://google.com"
  const ImageDir: string := "images/products/"

  /** The fields the card looks up, in the order it looks them up. */
  const RequiredKeys: seq<string> :=
    ["name", "id", "price", "category", "maker", "score", "review_number",
     "file_name", "description", "recommended_people"]

  /** One retrieved document; only its text is read. */
  datatype Document = Document(pageContent: string)

  /** Why a card stopped: a field lookup failed (`KeyError`), or the list of
      retrieved documents was empty (`IndexError` on `result[0]`). */
  datatype Failure = MissingField(key: string) | NoDocument

  datatype Outcome = Shown | Failed(failure: Failure)

  /** The blocks written and how the rendering ended. */
  datatype Rendering = Rendering(blocks: seq<Block>, outcome: Outcome)

  predicate HasRequired(product: Record)
  {
    forall i :: 0 <= i < |RequiredKeys| ==> RequiredKeys[i] in product
  }

  lemma HasRequiredByName(product: Record)
    ensures HasRequired(product) <==>
              && "name" in product && "id" in product && "price" in product
              && "category" in product && "maker" in product && "score" in product && "review_number" in product
              && "file_name" in product && "description" in product && "recommended_people" in product
  {
    assert RequiredKeys[0] == "name" && RequiredKeys[1] == "id" && RequiredKeys[2] == "price";
    assert RequiredKeys[3] == "category" && RequiredKeys[4] == "maker";
    assert RequiredKeys[5] == "score" && RequiredKeys[6] == "review_number";
    assert RequiredKeys[7] == "file_name" && RequiredKeys[8] == "description";
    assert RequiredKeys[9] == "recommended_people";
  }

  /** The value of a field, or "" where the record lacks it. */
  function Get(product: Record, key: string): (value: string)
    ensures key in product ==> value == product[key]
  {
    if key in product then product[key] else ""
  }

  /** The banner the stock state calls for. */
  function Banner(state: StockState): (banner: seq<Block>)
    ensures |banner| <= 1
  {
    match state
    case LowStock => [LowStockBanner]
    case OutOfStock => [OutOfStockBanner]
    case Unspecified => []
  }

  /** The lead-in and the name, id and price line. */
  function CardHead(product: Record): (head: seq<Block>)
    ensures |head| == 2
  {
    [Markdown(LeadIn), Success(Get(product, "name"), Get(product, "id"), Get(product, "price"))]
  }

  /** The blocks after the banner: specifications, image, description,
      recommendation heading, recommendation and link. */
  function CardTail(product: Record): (tail: seq<Block>)
    ensures |tail| == 6
  {
    [Specs(Get(product, "category"), Get(product, "maker"), Get(product, "score"), Get(product, "review_number")),
     Image(ImageDir + Get(product, "file_name")),
     Code(Get(product, "description")),
     Markdown(RecommendHeading),
     Info(Get(product, "recommended_people")),
     LinkButton(LinkCaption, ProductPageUrl)]
  }

  /** Every block of the card in order, each showing the fields it reads.
      For a record with every required field this is what the page shows;
      for any other record only a prefix of it is shown (see `CutCard`),
      and no block of that prefix reads a missing field. */
  function FullCard(product: Record, lowSentinel: string, noneSentinel: string): (card: seq<Block>)
    ensures |card| == 8 + |Banner(StockOf(product, lowSentinel, noneSentinel))|
  {
    CardHead(product) + Banner(StockOf(product, lowSentinel, noneSentinel)) + CardTail(product)
  }

  /** The index in `RequiredKeys` of the first field, from `from` on, that
      the record lacks. */
  function FirstMissingFrom(product: Record, from: nat): (r: Text.Option<nat>)
    requires from <= |RequiredKeys|
    ensures r.Some? ==> from <= r.value < |RequiredKeys| && RequiredKeys[r.value] !in product
    decreases |RequiredKeys| - from
  {
    if from == |RequiredKeys| then Text.None
    else if RequiredKeys[from] !in product then Text.Some(from)
    else FirstMissingFrom(product, from + 1)
  }

  function FirstMissing(product: Record): Text.Option<nat>
  {
    FirstMissingFrom(product, 0)
  }

  /** The search finds the first missing field: every field before it is
      present, and it finds none exactly when all the rest are present. */
  lemma {:induction false} FirstMissingIsFirst(product: Record, from: nat)
    requires from <= |RequiredKeys|
    ensures var r := FirstMissingFrom(product, from);
            && (r.Some? ==> forall j :: from <= j < r.value ==> RequiredKeys[j] in product)
            && (r.None? <==> forall j :: from <= j < |RequiredKeys| ==> RequiredKeys[j] in product)
    decreases |RequiredKeys| - from
  {
    if from < |RequiredKeys| && RequiredKeys[from] in product {
      FirstMissingIsFirst(product, from + 1);
    }
  }

  /** How many blocks of the tail are on the page when the lookup of
      `RequiredKeys[i]`, for i >= 3, fails: category to review_number are
      read for the first block; file_name for the image; description for
      its block; recommended_people only after the heading above it. */
  function TailCut(i: nat): (cut: nat)
    ensures cut <= 4
  {
    if i < 7 then 0
    else if i == 7 then 1
    else if i == 8 then 2
    else 4
  }

  /** How many blocks of the full card are on the page when the lookup of
      `RequiredKeys[i]` fails: name, id and price are read for the block
      after the lead-in; the rest as `TailCut` says. */
  function CutPoint(i: nat, bannerCount: nat): (cut: nat)
    ensures 1 <= cut <= 6 + bannerCount
  {
    if i < 3 then 1 else 2 + bannerCount + TailCut(i)
  }

  /** The full card cut where the lookup of the first missing field fails,
      followed by that failure: the card as a whole, independent of the
      order in which the code below writes it. */
  function CutCard(product: Record, lowSentinel: string, noneSentinel: string): (r: Rendering)
    ensures var card := FullCard(product, lowSentinel, noneSentinel);
            1 <= |r.blocks| <= |card| && r.blocks == card[..|r.blocks|]
    ensures r.outcome.Shown? <==> |r.blocks| == |FullCard(product, lowSentinel, noneSentinel)|
  {
    var card := FullCard(product, lowSentinel, noneSentinel);
    match FirstMissing(product)
    case None => Rendering(card, Shown)
    case Some(i) =>
      Rendering(card[..CutPoint(i, |Banner(StockOf(product, lowSentinel, noneSentinel))|)],
                Failed(MissingField(RequiredKeys[i])))
  }

  /** Blocks written before the rest of the rendering. */
  function Then(shown: seq<Block>, rest: Rendering): (r: Rendering)
  {
    Rendering(shown + rest.blocks, rest.outcome)
  }

  /** The lookup of `key` fails before anything more is written. */
  function Stop(key: string): (r: Rendering)
  {
    Rendering([], Failed(MissingField(key)))
  }

  /** The card of a parsed record, block by block in the order the code
      writes them, each field looked up just before the block that shows it. */
  function RenderCard(product: Record, lowSentinel: string, noneSentinel: string): (r: Rendering)
    ensures |r.blocks| >= 1 && r.blocks[0] == Markdown(LeadIn)
    ensures r.outcome.Shown? <==> HasRequired(product)
    ensures r.outcome.Failed? ==> r.outcome.failure.MissingField? && r.outcome.failure.key !in product
  {
    HasRequiredByName(product);
    Then([Markdown(LeadIn)],
      if "name" !in product then Stop("name")
      else if "id" !in product then Stop("id")
      else if "price" !in product then Stop("price")
      else Then([Success(product["name"], product["id"], product["price"])]
                + Banner(StockOf(product, lowSentinel, noneSentinel)),
                DetailsCard(product)))
  }

  /** The blocks after the banner: the specifications, then the media. */
  function DetailsCard(product: Record): (r: Rendering)
    ensures r.outcome.Shown? <==>
              && "category" in product && "maker" in product && "score" in product && "review_number" in product
              && "file_name" in product && "description" in product && "recommended_people" in product
    ensures r.outcome.Failed? ==> r.outcome.failure.MissingField? && r.outcome.failure.key !in product
  {
    if "category" !in product then Stop("category")
    else if "maker" !in product then Stop("maker")
    else if "score" !in product then Stop("score")
    else if "review_number" !in product then Stop("review_number")
    else Then([Specs(product["category"], product["maker"], product["score"], product["review_number"])],
              MediaCard(product))
  }

  /** The image, the description, the recommendation and the link. */
  function MediaCard(product: Record): (r: Rendering)
    ensures r.outcome.Shown? <==> "file_name" in product && "description" in product && "recommended_people" in product
    ensures r.outcome.Failed? ==> r.outcome.failure.MissingField? && r.outcome.failure.key !in product
  {
    if "file_name" !in product then Stop("file_name")
    else Then([Image(ImageDir + product["file_name"])],
      if "description" !in product then Stop("description")
      else Then([Code(product["description"]), Markdown(RecommendHeading)],
        if "recommended_people" !in product then Stop("recommended_people")
        else Rendering([Info(product["recommended_people"]), LinkButton(LinkCaption, ProductPageUrl)], Shown)))
  }

  /** `display_product(result)`: the first document's text, parsed and shown. */
  function CardOf(result: seq<Document>, lowSentinel: string, noneSentinel: string): (r: Rendering)
    ensures r.outcome == Failed(NoDocument) <==> |result| == 0
    ensures |result| > 0 ==> |r.blocks| >= 1 && r.blocks[0] == Markdown(LeadIn)
  {
    if |result| == 0 then Rendering([], Failed(NoDocument))
    else RenderCard(Parse(result[0].pageContent), lowSentinel, noneSentinel)
  }

  /** Lines 79-99: at most one banner, chosen by the stock policy. */
  method ShowStock(ui: Surface, product: Record, lowSentinel: string, noneSentinel: string)
    modifies ui
    ensures ui.blocks == old(ui.blocks) + Banner(StockOf(product, lowSentinel, noneSentinel))
  {
    var status := StockStatus(product);
    if status == Text.Some(lowSentinel) {
      ui.Emit(LowStockBanner);
    } else if status == Text.Some(noneSentinel) {
      ui.Emit(OutOfStockBanner);
    }
  }

  /** Lines 70-119 after parsing: write the card of a record to the surface. */
  method ShowRecord(ui: Surface, product: Record, lowSentinel: string, noneSentinel: string)
    returns (outcome: Outcome)
    modifies ui
    ensures ui.blocks == old(ui.blocks) + RenderCard(product, lowSentinel, noneSentinel).blocks
    ensures outcome == RenderCard(product, lowSentinel, noneSentinel).outcome
  {
    ui.Emit(Markdown(LeadIn));
    if "name" !in product { return Failed(MissingField("name")); }
    if "id" !in product { return Failed(MissingField("id")); }
    if "price" !in product { return Failed(MissingField("price")); }
    var success := Success(product["name"], product["id"], product["price"]);
    ui.Emit(success);
    ghost var banner := Banner(StockOf(product, lowSentinel, noneSentinel));
    ShowStock(ui, product, lowSentinel, noneSentinel);
    ghost var pre := ui.blocks;
    outcome := ShowDetails(ui, product);
    ghost var details := DetailsCard(product).blocks;
    assert ui.blocks == old(ui.blocks) + [Markdown(LeadIn)] + [success] + banner + details;
    Regroup(Markdown(LeadIn), success, banner, details);
    Prepend(old(ui.blocks), [Markdown(LeadIn), success], banner, details);
  }

  /** Lines 101-106: the specifications block. */
  method ShowDetails(ui: Surface, product: Record) returns (outcome: Outcome)
    modifies ui
    ensures ui.blocks == old(ui.blocks) + DetailsCard(product).blocks
    ensures outcome == DetailsCard(product).outcome
  {
    if "category" !in product { return Failed(MissingField("category")); }
    if "maker" !in product { return Failed(MissingField("maker")); }
    if "score" !in product { return Failed(MissingField("score")); }
    if "review_number" !in product { return Failed(MissingField("review_number")); }
    var specs := Specs(product["category"], product["maker"], product["score"], product["review_number"]);
    ui.Emit(specs);
    outcome := ShowMedia(ui, product);
    Text.AppendAssociates(old(ui.blocks), [specs], MediaCard(product).blocks);
  }

  /** Lines 108-119: image, description, recommendation and link. */
  method ShowMedia(ui: Surface, product: Record) returns (outcome: Outcome)
    modifies ui
    ensures ui.blocks == old(ui.blocks) + MediaCard(product).blocks
    ensures outcome == MediaCard(product).outcome
  {
    if "file_name" !in product { return Failed(MissingField("file_name")); }
    ui.Emit(Image(ImageDir + product["file_name"]));
    if "description" !in product { return Failed(MissingField("description")); }
    ui.Emit(Code(product["description"]));
    ui.Emit(Markdown(RecommendHeading));
    if "recommended_people" !in product { return Failed(MissingField("recommended_people")); }
    ui.Emit(Info(product["recommended_people"]));
    ui.Emit(LinkButton(LinkCaption, ProductPageUrl));
    outcome := Shown;
  }

  /** From the media stage on, the card written is the tail past its first
      block, cut at the first missing field among those it reads. */
  lemma MediaMatches(product: Record)
    ensures MediaCard(product)
            == match FirstMissingFrom(product, 7)
               case None => Rendering(CardTail(product)[1..], Shown)
               case Some(i) => Rendering(CardTail(product)[1..TailCut(i)], Failed(MissingField(RequiredKeys[i])))
  {
    var tail := CardTail(product);
    if "file_name" in product {
      assert FirstMissingFrom(product, 7) == FirstMissingFrom(product, 8);
      if "description" in product {
        assert FirstMissingFrom(product, 8) == FirstMissingFrom(product, 9);
        if "recommended_people" in product {
          assert FirstMissingFrom(product, 7) == Text.None;
          assert tail[1..] == MediaCard(product).blocks;
        } else {
          assert tail[1..4] == MediaCard(product).blocks;
        }
      } else {
        assert tail[1..2] == MediaCard(product).blocks;
      }
    }
  }

  /** From the specifications on, the card written is the tail, cut at the
      first missing field among those it reads. */
  lemma DetailsMatches(product: Record)
    ensures DetailsCard(product)
            == match FirstMissingFrom(product, 3)
               case None => Rendering(CardTail(product), Shown)
               case Some(i) => Rendering(CardTail(product)[..TailCut(i)], Failed(MissingField(RequiredKeys[i])))
  {
    var tail := CardTail(product);
    if "category" in product && "maker" in product && "score" in product && "review_number" in product {
      assert FirstMissingFrom(product, 3) == FirstMissingFrom(product, 5);
      assert FirstMissingFrom(product, 5) == FirstMissingFrom(product, 7);
      MediaMatches(product);
      assert tail[0] == Specs(product["category"], product["maker"], product["score"], product["review_number"]);
      match FirstMissingFrom(product, 7)
      case None =>
        assert tail == [tail[0]] + tail[1..];
      case Some(i) =>
        assert tail[..TailCut(i)] == [tail[0]] + tail[1..TailCut(i)];
    } else if "category" in product && "maker" in product {
      assert FirstMissingFrom(product, 3) == FirstMissingFrom(product, 5);
    }
  }

  lemma CutAfter(a: seq<Block>, b: seq<Block>, c: seq<Block>, n: nat)
    requires n <= |c|
    ensures (a + b + c)[..|a| + |b| + n] == a + b + c[..n]
  {
  }

  lemma Prepend(a: seq<Block>, h: seq<Block>, b: seq<Block>, c: seq<Block>)
    requires |h| == 2
    ensures a + [h[0]] + [h[1]] + b + c == a + (h + b + c)
  {
  }

  lemma Regroup(x: Block, y: Block, b: seq<Block>, c: seq<Block>)
    ensures [x] + (([y] + b) + c) == [x, y] + b + c
  {
  }

  /** The card the code writes is the full card cut at the first missing
      field, with that field's failure; the full card when none is missing. */
  lemma RenderCardIsCutFullCard(product: Record, lowSentinel: string, noneSentinel: string)
    ensures RenderCard(product, lowSentinel, noneSentinel) == CutCard(product, lowSentinel, noneSentinel)
  {
    var r := RenderCard(product, lowSentinel, noneSentinel);
    var head, banner, tail := CardHead(product), Banner(StockOf(product, lowSentinel, noneSentinel)), CardTail(product);
    if "name" !in product {
      assert FirstMissing(product) == Text.Some(0);
    } else if "id" !in product {
      assert FirstMissing(product) == Text.Some(1);
    } else if "price" !in product {
      assert FirstMissing(product) == Text.Some(2);
    } else {
      assert FirstMissing(product) == FirstMissingFrom(product, 3);
      var success := Success(product["name"], product["id"], product["price"]);
      var details := DetailsCard(product);
      assert r.blocks == [Markdown(LeadIn)] + (([success] + banner) + details.blocks);
      Regroup(Markdown(LeadIn), success, banner, details.blocks);
      assert head == [Markdown(LeadIn), success];
      DetailsMatches(product);
      match FirstMissingFrom(product, 3)
      case None =>
      case Some(i) =>
        CutAfter(head, banner, tail, TailCut(i));
    }
  }

  /** A record with every required field gets the full card. */
  lemma CompleteCardIsFull(product: Record, lowSentinel: string, noneSentinel: string)
    requires HasRequired(product)
    ensures RenderCard(product, lowSentinel, noneSentinel) == Rendering(FullCard(product, lowSentinel, noneSentinel), Shown)
  {
    FirstMissingIsFirst(product, 0);
    RenderCardIsCutFullCard(product, lowSentinel, noneSentinel);
  }

  /** Whatever happens, the page shows a prefix of the full card. */
  lemma RenderedIsPrefix(product: Record, lowSentinel: string, noneSentinel: string)
    ensures var r := RenderCard(product, lowSentinel, noneSentinel);
            r.blocks == FullCard(product, lowSentinel, noneSentinel)[..|r.blocks|]
  {
    RenderCardIsCutFullCard(product, lowSentinel, noneSentinel);
  }

  /** `display_product(result)`: an empty result fails on `result[0]` before
      anything is shown; otherwise the first document's text is parsed and
      its card written. */
  method DisplayProduct(ui: Surface, result: seq<Document>, lowSentinel: string, noneSentinel: string)
    returns (outcome: Outcome)
    modifies ui
    ensures ui.blocks == old(ui.blocks) + CardOf(result, lowSentinel, noneSentinel).blocks
    ensures outcome == CardOf(result, lowSentinel, noneSentinel).outcome
  {
    if |result| == 0 {
      return Failed(NoDocument);
    }
    var product := ParseProduct(result[0].pageContent);
    outcome := ShowRecord(ui, product, lowSentinel, noneSentinel);
  }

  // Properties of the card

  /** The card is shown in full exactly when the record has every required
      field; otherwise it fails on the first missing one, in lookup order. */
  lemma ShownIffComplete(product: Record, lowSentinel: string, noneSentinel: string)
    ensures var r := RenderCard(product, lowSentinel, noneSentinel);
            && (r.outcome == Shown <==> HasRequired(product))
            && (r.outcome.Failed? ==>
                  exists i :: 0 <= i < |RequiredKeys| && r.outcome == Failed(MissingField(RequiredKeys[i]))
                              && RequiredKeys[i] !in product
                              && forall j :: 0 <= j < i ==> RequiredKeys[j] in product)
  {
    FirstMissingIsFirst(product, 0);
    RenderCardIsCutFullCard(product, lowSentinel, noneSentinel);
  }

  /** The shown part of the tail is the same for a record and for any record
      extending it, once the fields read before `RequiredKeys[i]` are
      present. */
  lemma TailAgrees(product: Record, full: Record, i: nat)
    requires 3 <= i < |RequiredKeys|
    requires forall j :: 0 <= j < i ==> RequiredKeys[j] in product
    requires forall k :: k in product ==> k in full && full[k] == product[k]
    ensures CardTail(product)[..TailCut(i)] == CardTail(full)[..TailCut(i)]
  {
    var t := TailCut(i);
    if t > 0 {
      assert RequiredKeys[3] == "category" && RequiredKeys[4] == "maker";
      assert RequiredKeys[5] == "score" && RequiredKeys[6] == "review_number";
      assert CardTail(product)[0] == CardTail(full)[0];
    }
    if t > 1 {
      assert RequiredKeys[7] == "file_name";
      assert CardTail(product)[1] == CardTail(full)[1];
    }
    if t > 2 {
      assert RequiredKeys[8] == "description";
      assert CardTail(product)[2] == CardTail(full)[2];
    }
  }

  /** The full cards of a record and of any record extending it with the
      same stock status agree up to the cut for `RequiredKeys[i]`, once the
      fields before it are present. */
  lemma PrefixAgrees(product: Record, full: Record, lowSentinel: string, noneSentinel: string, i: nat)
    requires i < |RequiredKeys|
    requires forall j :: 0 <= j < i ==> RequiredKeys[j] in product
    requires forall k :: k in product ==> k in full && full[k] == product[k]
    requires StockStatus(full) == StockStatus(product)
    ensures var cut := CutPoint(i, |Banner(StockOf(product, lowSentinel, noneSentinel))|);
            FullCard(product, lowSentinel, noneSentinel)[..cut] == FullCard(full, lowSentinel, noneSentinel)[..cut]
  {
    var banner := Banner(StockOf(product, lowSentinel, noneSentinel));
    assert banner == Banner(StockOf(full, lowSentinel, noneSentinel));
    if i >= 3 {
      assert RequiredKeys[0] == "name" && RequiredKeys[1] == "id" && RequiredKeys[2] == "price";
      assert CardHead(product) == CardHead(full);
      var t := TailCut(i);
      TailAgrees(product, full, i);
      CutAfter(CardHead(product), banner, CardTail(product), t);
      CutAfter(CardHead(full), banner, CardTail(full), t);
    }
  }

  /** A failed card is a strict prefix of the card of any record that extends
      this one with more fields (a completion of it, for one) and keeps its
      stock status, and it always holds the lead-in: no block on the page
      depends on a field that is missing. */
  lemma FailedCardIsPrefixOfCompletion(product: Record, full: Record, lowSentinel: string, noneSentinel: string)
    requires RenderCard(product, lowSentinel, noneSentinel).outcome.Failed?
    requires forall k :: k in product ==> k in full && full[k] == product[k]
    requires StockStatus(full) == StockStatus(product)
    ensures var shown := RenderCard(product, lowSentinel, noneSentinel).blocks;
            && 1 <= |shown| < |FullCard(full, lowSentinel, noneSentinel)|
            && shown == FullCard(full, lowSentinel, noneSentinel)[..|shown|]
            && shown[0] == Markdown(LeadIn)
  {
    RenderCardIsCutFullCard(product, lowSentinel, noneSentinel);
    FirstMissingIsFirst(product, 0);
    var i := FirstMissing(product).value;
    PrefixAgrees(product, full, lowSentinel, noneSentinel, i);
  }

  /** The number of stock banners among some blocks. */
  function BannerCount(blocks: seq<Block>): (count: nat)
  {
    if |blocks| == 0 then 0
    else (if IsBanner(blocks[0]) then 1 else 0) + BannerCount(blocks[1..])
  }

  lemma {:induction false} BannerCountConcat(a: seq<Block>, b: seq<Block>)
    ensures BannerCount(a + b) == BannerCount(a) + BannerCount(b)
    decreases |a|
  {
    if |a| > 0 {
      BannerCountConcat(a[1..], b);
      assert (a + b)[0] == a[0];
      assert (a + b)[1..] == a[1..] + b;
    } else {
      assert a + b == b;
    }
  }

  lemma {:induction false} NoBannerCountsZero(blocks: seq<Block>)
    requires forall i :: 0 <= i < |blocks| ==> !IsBanner(blocks[i])
    ensures BannerCount(blocks) == 0
    decreases |blocks|
  {
    if |blocks| > 0 {
      NoBannerCountsZero(blocks[1..]);
    }
  }

  lemma {:induction false} BannerCountPrefix(blocks: seq<Block>, n: nat)
    requires n <= |blocks|
    ensures BannerCount(blocks[..n]) <= BannerCount(blocks)
  {
    BannerCountConcat(blocks[..n], blocks[n..]);
    assert blocks[..n] + blocks[n..] == blocks;
  }

  /** The full card holds exactly the banner the stock policy chose. */
  lemma FullCardBanners(product: Record, lowSentinel: string, noneSentinel: string)
    ensures BannerCount(FullCard(product, lowSentinel, noneSentinel))
            == |Banner(StockOf(product, lowSentinel, noneSentinel))|
  {
    var card := FullCard(product, lowSentinel, noneSentinel);
    var banner := Banner(StockOf(product, lowSentinel, noneSentinel));
    var head, tail := CardHead(product), CardTail(product);
    BannerCountConcat(head + banner, tail);
    BannerCountConcat(head, banner);
    NoBannerCountsZero(head);
    NoBannerCountsZero(tail);
    if |banner| == 1 {
      assert BannerCount(banner) == 1 + BannerCount(banner[1..]);
    }
  }

  /** A full card holds no chat message. */
  lemma FullCardOpensNoMessage(product: Record, lowSentinel: string, noneSentinel: string)
    ensures var card := FullCard(product, lowSentinel, noneSentinel);
            forall i :: 0 <= i < |card| ==> !card[i].ChatMessage?
  {
    var card := FullCard(product, lowSentinel, noneSentinel);
    var banner := Banner(StockOf(product, lowSentinel, noneSentinel));
    var head, tail := CardHead(product), CardTail(product);
    assert forall i :: 0 <= i < |head| ==> !head[i].ChatMessage?;
    assert forall i :: 0 <= i < |banner| ==> !banner[i].ChatMessage?;
    assert forall i :: 0 <= i < |tail| ==> !tail[i].ChatMessage?;
  }

  /** A card shows at most one stock banner, whether it completes or not. */
  lemma AtMostOneBanner(product: Record, lowSentinel: string, noneSentinel: string)
    ensures BannerCount(RenderCard(product, lowSentinel, noneSentinel).blocks) <= 1
  {
    var card := FullCard(product, lowSentinel, noneSentinel);
    var shown := RenderCard(product, lowSentinel, noneSentinel).blocks;
    FullCardBanners(product, lowSentinel, noneSentinel);
    RenderedIsPrefix(product, lowSentinel, noneSentinel);
    BannerCountPrefix(card, |shown|);
  }

  /** In a complete card the low-stock banner appears exactly when the stock
      policy says low stock, and the out-of-stock banner exactly when it says
      out of stock. */
  lemma BannerFollowsPolicy(product: Record, lowSentinel: string, noneSentinel: string)
    requires HasRequired(product)
    ensures var shown := RenderCard(product, lowSentinel, noneSentinel).blocks;
            && (LowStockBanner in shown <==> StockOf(product, lowSentinel, noneSentinel) == LowStock)
            && (OutOfStockBanner in shown <==> StockOf(product, lowSentinel, noneSentinel) == OutOfStock)
  {
    CompleteCardIsFull(product, lowSentinel, noneSentinel);
    var head, tail := CardHead(product), CardTail(product);
    assert LowStockBanner !in head && LowStockBanner !in tail;
    assert OutOfStockBanner !in head && OutOfStockBanner !in tail;
  }

  /** A complete card always ends with the same link, whatever the record. */
  lemma LinkIsFixed(product: Record, lowSentinel: string, noneSentinel: string)
    requires HasRequired(product)
    ensures var shown := RenderCard(product, lowSentinel, noneSentinel).blocks;
            |shown| > 0 && shown[|shown| - 1] == LinkButton(LinkCaption, ProductPageUrl)
  {
    CompleteCardIsFull(product, lowSentinel, noneSentinel);
  }

  /** A record with no fields stops at the name lookup, after the lead-in. */
  lemma EmptyRecordStopsAtName(lowSentinel: string, noneSentinel: string)
    ensures RenderCard(map[], lowSentinel, noneSentinel) == Rendering([Markdown(LeadIn)], Failed(MissingField("name")))
  {
    assert FirstMissing(map[]) == Text.Some(0);
  }

  /** Text none of whose lines holds `": "` parses to an empty record, so
      its card stops at the name lookup with only the lead-in on the page. */
  lemma UndelimitedTextStopsAtName(pageContent: string, lowSentinel: string, noneSentinel: string)
    requires forall line :: line in Text.Split(pageContent, '\n') ==> !ContainsDelimiter(line)
    ensures CardOf([Document(pageContent)], lowSentinel, noneSentinel)
            == Rendering([Markdown(LeadIn)], Failed(MissingField("name")))
  {
    UndelimitedTextGivesEmptyRecord(pageContent);
    EmptyRecordStopsAtName(lowSentinel, noneSentinel);
  }
}

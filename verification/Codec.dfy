/**
 * The JSON codecs of Horizon's offers and balances: decoders that try one
 * alternative after another, and encoders that mirror them.
 */
module Codec {
  import opened Prelude
  import opened Decimal

  datatype Json =
    | JNull
    | JBool(bool)
    | JInt(int)
    | JFloat(real)
    | JStr(string)
    | JList(items: seq<Json>)
    | JDict(fields: map<string, Json>)

  // `obj.get(key)`.
  function Get(obj: Json, key: string): Json
    requires obj.JDict?
  {
    if key in obj.fields then obj.fields[key] else JNull
  }

  // --------------------------------------------------------------- combinators

  /** The first alternative that does not raise; None stands for an exception. */
  function FromUnion<A, B>(fs: seq<A -> Option<B>>, x: A): Option<B> {
    if fs == [] then None
    else if fs[0](x).Some? then fs[0](x)
    else FromUnion(fs[1..], x)
  }

  lemma {:induction false} FirstSuccess<A, B>(fs: seq<A -> Option<B>>, x: A)
    ensures FromUnion(fs, x).None? <==> forall i | 0 <= i < |fs| :: fs[i](x).None?
    ensures FromUnion(fs, x).Some? ==>
      exists i :: 0 <= i < |fs| && fs[i](x) == FromUnion(fs, x) && forall j | 0 <= j < i :: fs[j](x).None?
  {
    if fs != [] && fs[0](x).None? {
      FirstSuccess(fs[1..], x);
      if i :| 0 <= i < |fs| - 1 && fs[1..][i](x) == FromUnion(fs[1..], x) && FromUnion(fs[1..], x).Some?
              && forall j | 0 <= j < i :: fs[1..][j](x).None? {
        assert fs[i + 1](x) == FromUnion(fs, x);
        forall j | 0 <= j < i + 1
          ensures fs[j](x).None?
        {
          assert j > 0 ==> fs[j] == fs[1..][j - 1];
        }
      } else {
        assert forall i | 1 <= i < |fs| :: fs[i] == fs[1..][i - 1];
      }
    }
  }

  lemma UnionOfTwo<A, B>(f: A -> Option<B>, g: A -> Option<B>, x: A)
    ensures FromUnion([f, g], x) == if f(x).Some? then f(x) else g(x)
  {
    assert [f, g][1..] == [g];
    assert FromUnion([g], x) == if g(x).Some? then g(x) else FromUnion([g][1..], x);
  }

  function FromList<A, B>(f: A -> Option<B>, xs: seq<A>): Option<seq<B>> {
    if xs == [] then Some([])
    else
      var first :- f(xs[0]);
      var rest :- FromList(f, xs[1..]);
      Some([first] + rest)
  }

  function FromStr(x: Json): Option<string> {
    match x
    case JStr(s) => Some(s)
    case _ => None
  }

  function FromBool(x: Json): Option<bool> {
    match x
    case JBool(b) => Some(b)
    case _ => None
  }

  function FromInt(x: Json): Option<int> {
    match x
    case JInt(n) => Some(n)
    case _ => None
  }

  // `int(from_str(x))`.
  function FromDecimal(x: Json): Option<int> {
    var s :- FromStr(x);
    ParseInt(s)
  }

  // An alternative that decodes to a present value of an optional field.
  function Present<T>(decode: Json -> Option<T>): Json -> Option<Option<T>> {
    (x: Json) => if decode(x).Some? then Some(Some(decode(x).value)) else None
  }

  // `from_none`.
  function Absent<T>(): Json -> Option<Option<T>> {
    (x: Json) => if x.JNull? then Some(None) else None
  }

  function Optional<T>(decode: Json -> Option<T>, x: Json): Option<Option<T>> {
    FromUnion([Present(decode), Absent()], x)
  }

  // The decimal fields try `from_none` first.
  function OptionalDecimal(x: Json): Option<Option<int>> {
    FromUnion([Absent(), Present(FromDecimal)], x)
  }

  function EncodePresent<T>(encode: T -> Json): Option<T> -> Option<Json> {
    (x: Option<T>) => if x.Some? then Some(encode(x.value)) else None
  }

  function EncodeAbsent<T>(): Option<T> -> Option<Json> {
    (x: Option<T>) => if x.None? then Some(JNull) else None
  }

  // The union never raises on a field of its declared type.
  function Field<T>(encode: T -> Json, x: Option<T>): Json {
    UnionOfTwo(EncodePresent(encode), EncodeAbsent(), x);
    FromUnion([EncodePresent(encode), EncodeAbsent()], x).value
  }

  function DecimalField(x: Option<int>): Json {
    var encode := (n: int) => JStr(PrintInt(n));
    UnionOfTwo(EncodeAbsent(), EncodePresent(encode), x);
    FromUnion([EncodeAbsent(), EncodePresent(encode)], x).value
  }

  // ------------------------------------------------------------ entities

  datatype MyAsset = MyAsset(assetType: Option<string>, assetCode: Option<string>, assetIssuer: Option<string>)

  datatype Next = Next(href: Option<string>)

  datatype RecordLinks = RecordLinks(linksSelf: Option<Next>, offerMaker: Option<Next>)

  datatype PriceR = PriceR(n: Option<int>, d: Option<int>)

  // D is the type of points in time.
  datatype MyOffer<D> = MyOffer(
    id: Option<int>,
    pagingToken: Option<int>,
    links: Option<RecordLinks>,
    seller: Option<string>,
    selling: Option<MyAsset>,
    buying: Option<MyAsset>,
    amount: Option<string>,
    priceR: Option<PriceR>,
    price: Option<string>,
    lastModifiedLedger: Option<int>,
    lastModifiedTime: Option<D>)

  datatype Embedded<D> = Embedded(records: Option<seq<MyOffer<D>>>)

  datatype OfferLinks = OfferLinks(linksSelf: Option<Next>, next: Option<Next>, prev: Option<Next>)

  datatype MyOffers<D> = MyOffers(links: Option<OfferLinks>, embedded: Option<Embedded<D>>)

  // Printing and parsing of points in time.
  datatype Calendar<!D> = Calendar(isoformat: D -> string, parse: string -> Option<D>)

  // ------------------------------------------------------------ encoders

  function Str(s: string): Json {
    JStr(s)
  }

  function Int(n: int): Json {
    JInt(n)
  }

  function Bool(b: bool): Json {
    JBool(b)
  }

  function AssetToDict(a: MyAsset): Json {
    JDict(map[
      "asset_type" := Field(Str, a.assetType),
      "asset_code" := Field(Str, a.assetCode),
      "asset_issuer" := Field(Str, a.assetIssuer)])
  }

  function NextToDict(n: Next): Json {
    JDict(map["href" := Field(Str, n.href)])
  }

  function RecordLinksToDict(l: RecordLinks): Json {
    JDict(map[
      "self" := Field(NextToDict, l.linksSelf),
      "offer_maker" := Field(NextToDict, l.offerMaker)])
  }

  function PriceToDict(p: PriceR): Json {
    JDict(map["n" := Field(Int, p.n), "d" := Field(Int, p.d)])
  }

  function DatetimeToStr<D>(calendar: Calendar<D>): D -> Json {
    (at: D) => JStr(calendar.isoformat(at))
  }

  function OfferToDict<D>(calendar: Calendar<D>, o: MyOffer<D>): Json {
    JDict(map[
      "id" := DecimalField(o.id),
      "paging_token" := DecimalField(o.pagingToken),
      "_links" := Field(RecordLinksToDict, o.links),
      "seller" := Field(Str, o.seller),
      "selling" := Field(AssetToDict, o.selling),
      "buying" := Field(AssetToDict, o.buying),
      "amount" := Field(Str, o.amount),
      "price_r" := Field(PriceToDict, o.priceR),
      "price" := Field(Str, o.price),
      "last_modified_ledger" := Field(Int, o.lastModifiedLedger),
      "last_modified_time" := Field(DatetimeToStr(calendar), o.lastModifiedTime)])
  }

  function RecordsToList<D>(calendar: Calendar<D>): seq<MyOffer<D>> -> Json {
    (records: seq<MyOffer<D>>) =>
      JList(seq(|records|, i requires 0 <= i < |records| => OfferToDict(calendar, records[i])))
  }

  function EmbeddedToDict<D>(calendar: Calendar<D>): Embedded<D> -> Json {
    (e: Embedded<D>) => JDict(map["records" := Field(RecordsToList(calendar), e.records)])
  }

  function OfferLinksToDict(l: OfferLinks): Json {
    JDict(map[
      "self" := Field(NextToDict, l.linksSelf),
      "next" := Field(NextToDict, l.next),
      "prev" := Field(NextToDict, l.prev)])
  }

  function OffersToDict<D>(calendar: Calendar<D>, o: MyOffers<D>): Json {
    JDict(map[
      "_links" := Field(OfferLinksToDict, o.links),
      "_embedded" := Field(EmbeddedToDict(calendar), o.embedded)])
  }

  // ------------------------------------------------------------ decoders

  function AssetFromDict(x: Json): Option<MyAsset> {
    if !x.JDict? then None
    else
      var assetType :- Optional(FromStr, Get(x, "asset_type"));
      var assetCode :- Optional(FromStr, Get(x, "asset_code"));
      var assetIssuer :- Optional(FromStr, Get(x, "asset_issuer"));
      Some(MyAsset(assetType, assetCode, assetIssuer))
  }

  function NextFromDict(x: Json): Option<Next> {
    if !x.JDict? then None
    else
      var href :- Optional(FromStr, Get(x, "href"));
      Some(Next(href))
  }

  function RecordLinksFromDict(x: Json): Option<RecordLinks> {
    if !x.JDict? then None
    else
      var linksSelf :- Optional(NextFromDict, Get(x, "self"));
      var offerMaker :- Optional(NextFromDict, Get(x, "offer_maker"));
      Some(RecordLinks(linksSelf, offerMaker))
  }

  function PriceFromDict(x: Json): Option<PriceR> {
    if !x.JDict? then None
    else
      var n :- Optional(FromInt, Get(x, "n"));
      var d :- Optional(FromInt, Get(x, "d"));
      Some(PriceR(n, d))
  }

  function FromDatetime<D>(calendar: Calendar<D>): Json -> Option<D> {
    (x: Json) => if FromStr(x).Some? then calendar.parse(FromStr(x).value) else None
  }

  function OfferFromDict<D>(calendar: Calendar<D>, x: Json): Option<MyOffer<D>> {
    if !x.JDict? then None
    else
      var id :- OptionalDecimal(Get(x, "id"));
      var pagingToken :- OptionalDecimal(Get(x, "paging_token"));
      var links :- Optional(RecordLinksFromDict, Get(x, "_links"));
      var seller :- Optional(FromStr, Get(x, "seller"));
      var selling :- Optional(AssetFromDict, Get(x, "selling"));
      var buying :- Optional(AssetFromDict, Get(x, "buying"));
      var amount :- Optional(FromStr, Get(x, "amount"));
      var priceR :- Optional(PriceFromDict, Get(x, "price_r"));
      var price :- Optional(FromStr, Get(x, "price"));
      var lastModifiedLedger :- Optional(FromInt, Get(x, "last_modified_ledger"));
      var lastModifiedTime :- Optional(FromDatetime(calendar), Get(x, "last_modified_time"));
      Some(MyOffer(id, pagingToken, links, seller, selling, buying, amount, priceR, price,
                   lastModifiedLedger, lastModifiedTime))
  }

  function RecordsFromList<D>(calendar: Calendar<D>): Json -> Option<seq<MyOffer<D>>> {
    (x: Json) => if !x.JList? then None else FromList((y: Json) => OfferFromDict(calendar, y), x.items)
  }

  function EmbeddedFromDict<D>(calendar: Calendar<D>): Json -> Option<Embedded<D>> {
    (x: Json) =>
      if !x.JDict? then None
      else
        var records :- Optional(RecordsFromList(calendar), Get(x, "records"));
        Some(Embedded(records))
  }

  function OfferLinksFromDict(x: Json): Option<OfferLinks> {
    if !x.JDict? then None
    else
      var linksSelf :- Optional(NextFromDict, Get(x, "self"));
      var next :- Optional(NextFromDict, Get(x, "next"));
      var prev :- Optional(NextFromDict, Get(x, "prev"));
      Some(OfferLinks(linksSelf, next, prev))
  }

  function OffersFromDict<D>(calendar: Calendar<D>, x: Json): Option<MyOffers<D>> {
    if !x.JDict? then None
    else
      var links :- Optional(OfferLinksFromDict, Get(x, "_links"));
      var embedded :- Optional(EmbeddedFromDict(calendar), Get(x, "_embedded"));
      Some(MyOffers(links, embedded))
  }

  // ------------------------------------------------------------ what is written

  lemma FieldIs<T>(encode: T -> Json, x: Option<T>)
    ensures Field(encode, x) == if x.Some? then encode(x.value) else JNull
  {
    UnionOfTwo(EncodePresent(encode), EncodeAbsent(), x);
  }

  /** The scalars as they are written: null if absent, and otherwise the text, the
      number, the truth value, or the number printed as a text. */
  lemma ScalarsWritten(s: string, n: int, b: bool)
    ensures Field(Str, Some(s)) == JStr(s) && Field(Str, None) == JNull
    ensures Field(Int, Some(n)) == JInt(n) && Field(Int, None) == JNull
    ensures Field(Bool, Some(b)) == JBool(b) && Field(Bool, None) == JNull
    ensures DecimalField(Some(n)) == JStr(PrintInt(n)) && DecimalField(None) == JNull
  {
    FieldIs(Str, Some(s));
    FieldIs(Str, None);
    FieldIs(Int, Some(n));
    FieldIs(Int, None);
    FieldIs(Bool, Some(b));
    FieldIs(Bool, None);
    DecimalFieldIs(Some(n));
    DecimalFieldIs(None);
  }

  lemma DecimalFieldIs(x: Option<int>)
    ensures DecimalField(x) == if x.Some? then JStr(PrintInt(x.value)) else JNull
  {
    var encode := (n: int) => JStr(PrintInt(n));
    UnionOfTwo(EncodeAbsent(), EncodePresent(encode), x);
  }

  lemma OptionalIs<T>(decode: Json -> Option<T>, x: Json)
    ensures Optional(decode, x)
         == if decode(x).Some? then Some(decode(x)) else if x.JNull? then Some(None) else None
  {
    UnionOfTwo(Present(decode), Absent(), x);
  }

  lemma OptionalDecimalIs(x: Json)
    ensures OptionalDecimal(x)
         == if x.JNull? then Some(None) else if FromDecimal(x).Some? then Some(FromDecimal(x)) else None
  {
    UnionOfTwo(Absent(), Present(FromDecimal), x);
  }

  /** The scalars as they are read: by their own kind of JSON, or null, and nothing else. */
  lemma ScalarsRead(x: Json)
    ensures forall s :: Optional(FromStr, x) == Some(Some(s)) <==> x == JStr(s)
    ensures forall n :: Optional(FromInt, x) == Some(Some(n)) <==> x == JInt(n)
    ensures forall b :: Optional(FromBool, x) == Some(Some(b)) <==> x == JBool(b)
    ensures forall n :: OptionalDecimal(x) == Some(Some(n)) <==> x.JStr? && ParseInt(FromStr(x).value) == Some(n)
    ensures Optional(FromStr, x) == Some(None) <==> x == JNull
    ensures Optional(FromInt, x) == Some(None) <==> x == JNull
    ensures Optional(FromBool, x) == Some(None) <==> x == JNull
    ensures OptionalDecimal(x) == Some(None) <==> x == JNull
  {
    OptionalIs(FromStr, x);
    OptionalIs(FromInt, x);
    OptionalIs(FromBool, x);
    OptionalDecimalIs(x);
  }

  /** The names under which the small classes write their fields. */
  lemma SmallFields(a: MyAsset, n: Next, p: PriceR)
    ensures Get(AssetToDict(a), "asset_type") == Field(Str, a.assetType)
    ensures Get(AssetToDict(a), "asset_code") == Field(Str, a.assetCode)
    ensures Get(AssetToDict(a), "asset_issuer") == Field(Str, a.assetIssuer)
    ensures Get(NextToDict(n), "href") == Field(Str, n.href)
    ensures Get(PriceToDict(p), "n") == Field(Int, p.n)
    ensures Get(PriceToDict(p), "d") == Field(Int, p.d)
  {
  }

  /** The names under which links and lists of offers are written. */
  lemma LinkFields<D>(calendar: Calendar<D>, r: RecordLinks, l: OfferLinks, e: Embedded<D>, o: MyOffers<D>)
    ensures Get(RecordLinksToDict(r), "self") == Field(NextToDict, r.linksSelf)
    ensures Get(RecordLinksToDict(r), "offer_maker") == Field(NextToDict, r.offerMaker)
    ensures Get(OfferLinksToDict(l), "self") == Field(NextToDict, l.linksSelf)
    ensures Get(OfferLinksToDict(l), "next") == Field(NextToDict, l.next)
    ensures Get(OfferLinksToDict(l), "prev") == Field(NextToDict, l.prev)
    ensures Get(EmbeddedToDict(calendar)(e), "records") == Field(RecordsToList(calendar), e.records)
    ensures Get(OffersToDict(calendar, o), "_links") == Field(OfferLinksToDict, o.links)
    ensures Get(OffersToDict(calendar, o), "_embedded") == Field(EmbeddedToDict(calendar), o.embedded)
  {
  }

  // ------------------------------------------------------------ round trips

  // A field comes back if its value does and null is not taken for a value.
  lemma FieldRoundTrip<T>(encode: T -> Json, decode: Json -> Option<T>, x: Option<T>)
    requires x.Some? ==> decode(encode(x.value)) == x
    requires decode(JNull).None?
    ensures Optional(decode, Field(encode, x)) == Some(x)
  {
    UnionOfTwo(EncodePresent(encode), EncodeAbsent(), x);
    UnionOfTwo(Present(decode), Absent(), Field(encode, x));
  }

  lemma StrRoundTrip(x: Option<string>)
    ensures Optional(FromStr, Field(Str, x)) == Some(x)
  {
    FieldRoundTrip(Str, FromStr, x);
  }

  lemma IntRoundTrip(x: Option<int>)
    ensures Optional(FromInt, Field(Int, x)) == Some(x)
  {
    FieldRoundTrip(Int, FromInt, x);
  }

  lemma DecimalRoundTrip(x: Option<int>)
    ensures OptionalDecimal(DecimalField(x)) == Some(x)
  {
    var encode := (n: int) => JStr(PrintInt(n));
    UnionOfTwo(EncodeAbsent(), EncodePresent(encode), x);
    UnionOfTwo(Absent(), Present(FromDecimal), DecimalField(x));
    if x.Some? {
      ParsePrintInt(x.value);
    }
  }

  lemma AssetRoundTrip(a: MyAsset)
    ensures AssetFromDict(AssetToDict(a)) == Some(a)
  {
    StrRoundTrip(a.assetType);
    StrRoundTrip(a.assetCode);
    StrRoundTrip(a.assetIssuer);
  }

  lemma NextRoundTrip(n: Next)
    ensures NextFromDict(NextToDict(n)) == Some(n)
  {
    StrRoundTrip(n.href);
  }

  lemma NextFieldRoundTrip(n: Option<Next>)
    ensures Optional(NextFromDict, Field(NextToDict, n)) == Some(n)
  {
    if n.Some? {
      NextRoundTrip(n.value);
    }
    FieldRoundTrip(NextToDict, NextFromDict, n);
  }

  lemma RecordLinksRoundTrip(l: RecordLinks)
    ensures RecordLinksFromDict(RecordLinksToDict(l)) == Some(l)
  {
    NextFieldRoundTrip(l.linksSelf);
    NextFieldRoundTrip(l.offerMaker);
  }

  lemma PriceRoundTrip(p: PriceR)
    ensures PriceFromDict(PriceToDict(p)) == Some(p)
  {
    IntRoundTrip(p.n);
    IntRoundTrip(p.d);
  }

  // The calendar prints what it can read back.
  ghost predicate Reads<D(!new)>(calendar: Calendar<D>) {
    forall at :: calendar.parse(calendar.isoformat(at)) == Some(at)
  }

  lemma OfferFields<D>(calendar: Calendar<D>, o: MyOffer<D>)
    ensures var x := OfferToDict(calendar, o);
      && Get(x, "id") == DecimalField(o.id)
      && Get(x, "paging_token") == DecimalField(o.pagingToken)
      && Get(x, "_links") == Field(RecordLinksToDict, o.links)
  {
  }

  lemma OfferAssetFields<D>(calendar: Calendar<D>, o: MyOffer<D>)
    ensures var x := OfferToDict(calendar, o);
      && Get(x, "seller") == Field(Str, o.seller)
      && Get(x, "selling") == Field(AssetToDict, o.selling)
      && Get(x, "buying") == Field(AssetToDict, o.buying)
  {
  }

  lemma MoreOfferFields<D>(calendar: Calendar<D>, o: MyOffer<D>)
    ensures var x := OfferToDict(calendar, o);
      && Get(x, "amount") == Field(Str, o.amount)
      && Get(x, "price_r") == Field(PriceToDict, o.priceR)
      && Get(x, "price") == Field(Str, o.price)
      && Get(x, "last_modified_ledger") == Field(Int, o.lastModifiedLedger)
      && Get(x, "last_modified_time") == Field(DatetimeToStr(calendar), o.lastModifiedTime)
  {
  }

  lemma OfferFieldsDecode<D>(calendar: Calendar<D>, o: MyOffer<D>, x: Json)
    requires x == OfferToDict(calendar, o)
    ensures OptionalDecimal(Get(x, "id")) == Some(o.id)
    ensures OptionalDecimal(Get(x, "paging_token")) == Some(o.pagingToken)
    ensures Optional(RecordLinksFromDict, Get(x, "_links")) == Some(o.links)
    ensures Optional(FromStr, Get(x, "seller")) == Some(o.seller)
    ensures Optional(AssetFromDict, Get(x, "selling")) == Some(o.selling)
    ensures Optional(AssetFromDict, Get(x, "buying")) == Some(o.buying)
  {
    OfferFields(calendar, o);
    OfferAssetFields(calendar, o);
    DecimalRoundTrip(o.id);
    DecimalRoundTrip(o.pagingToken);
    LinksFieldRoundTrip(o.links);
    StrRoundTrip(o.seller);
    AssetFieldRoundTrip(o.selling);
    AssetFieldRoundTrip(o.buying);
  }

  lemma MoreOfferFieldsDecode<D(!new)>(calendar: Calendar<D>, o: MyOffer<D>, x: Json)
    requires Reads(calendar) && x == OfferToDict(calendar, o)
    ensures Optional(FromStr, Get(x, "amount")) == Some(o.amount)
    ensures Optional(PriceFromDict, Get(x, "price_r")) == Some(o.priceR)
    ensures Optional(FromStr, Get(x, "price")) == Some(o.price)
    ensures Optional(FromInt, Get(x, "last_modified_ledger")) == Some(o.lastModifiedLedger)
    ensures Optional(FromDatetime(calendar), Get(x, "last_modified_time")) == Some(o.lastModifiedTime)
  {
    MoreOfferFields(calendar, o);
    StrRoundTrip(o.amount);
    PriceFieldRoundTrip(o.priceR);
    StrRoundTrip(o.price);
    IntRoundTrip(o.lastModifiedLedger);
    DatetimeRoundTrip(calendar, o.lastModifiedTime);
  }

  lemma OfferRoundTrip<D(!new)>(calendar: Calendar<D>, o: MyOffer<D>)
    requires Reads(calendar)
    ensures OfferFromDict(calendar, OfferToDict(calendar, o)) == Some(o)
  {
    var x := OfferToDict(calendar, o);
    OfferFieldsDecode(calendar, o, x);
    MoreOfferFieldsDecode(calendar, o, x);
  }

  lemma FromDatetimeAt<D>(calendar: Calendar<D>, x: Json)
    ensures FromDatetime(calendar)(x) == if x.JStr? then calendar.parse(FromStr(x).value) else None
  {
    var decode := FromDatetime(calendar);
    assert decode(x) == if FromStr(x).Some? then calendar.parse(FromStr(x).value) else None;
  }

  lemma DatetimeRoundTrip<D(!new)>(calendar: Calendar<D>, at: Option<D>)
    requires Reads(calendar)
    ensures Optional(FromDatetime(calendar), Field(DatetimeToStr(calendar), at)) == Some(at)
  {
    var encode, decode := DatetimeToStr(calendar), FromDatetime(calendar);
    FromDatetimeAt(calendar, JNull);
    if at.Some? {
      FromDatetimeAt(calendar, encode(at.value));
    }
    FieldRoundTrip(encode, decode, at);
  }

  lemma LinksFieldRoundTrip(l: Option<RecordLinks>)
    ensures Optional(RecordLinksFromDict, Field(RecordLinksToDict, l)) == Some(l)
  {
    if l.Some? {
      RecordLinksRoundTrip(l.value);
    }
    FieldRoundTrip(RecordLinksToDict, RecordLinksFromDict, l);
  }

  lemma AssetFieldRoundTrip(a: Option<MyAsset>)
    ensures Optional(AssetFromDict, Field(AssetToDict, a)) == Some(a)
  {
    if a.Some? {
      AssetRoundTrip(a.value);
    }
    FieldRoundTrip(AssetToDict, AssetFromDict, a);
  }

  lemma PriceFieldRoundTrip(p: Option<PriceR>)
    ensures Optional(PriceFromDict, Field(PriceToDict, p)) == Some(p)
  {
    if p.Some? {
      PriceRoundTrip(p.value);
    }
    FieldRoundTrip(PriceToDict, PriceFromDict, p);
  }

  /** A list decodes when every element does, element by element; one bad
      element fails the whole list. */
  lemma {:induction false} FromListPointwise<A, B>(f: A -> Option<B>, xs: seq<A>)
    ensures FromList(f, xs).Some? <==> forall i | 0 <= i < |xs| :: f(xs[i]).Some?
    ensures FromList(f, xs).Some? ==>
      && |FromList(f, xs).value| == |xs|
      && forall i | 0 <= i < |xs| :: f(xs[i]) == Some(FromList(f, xs).value[i])
  {
    if xs == [] {
    } else {
      FromListPointwise(f, xs[1..]);
      assert forall i | 1 <= i < |xs| :: xs[i] == xs[1..][i - 1];
    }
  }

  lemma RecordsRoundTrip<D(!new)>(calendar: Calendar<D>, records: seq<MyOffer<D>>)
    requires Reads(calendar)
    ensures RecordsFromList(calendar)(RecordsToList(calendar)(records)) == Some(records)
  {
    var items := RecordsToList(calendar)(records).items;
    forall i | 0 <= i < |records|
      ensures OfferFromDict(calendar, items[i]) == Some(records[i])
    {
      OfferRoundTrip(calendar, records[i]);
    }
    FromListPointwise((y: Json) => OfferFromDict(calendar, y), items);
    assert RecordsFromList(calendar)(JList(items)).value == records;
  }

  lemma EmbeddedRoundTrip<D(!new)>(calendar: Calendar<D>, e: Embedded<D>)
    requires Reads(calendar)
    ensures EmbeddedFromDict(calendar)(EmbeddedToDict(calendar)(e)) == Some(e)
  {
    if e.records.Some? {
      RecordsRoundTrip(calendar, e.records.value);
    }
    FieldRoundTrip(RecordsToList(calendar), RecordsFromList(calendar), e.records);
  }

  lemma OfferLinksRoundTrip(l: OfferLinks)
    ensures OfferLinksFromDict(OfferLinksToDict(l)) == Some(l)
  {
    NextFieldRoundTrip(l.linksSelf);
    NextFieldRoundTrip(l.next);
    NextFieldRoundTrip(l.prev);
  }

  /** Decoding undoes encoding, for every tree of offers. */
  lemma OffersRoundTrip<D(!new)>(calendar: Calendar<D>, o: MyOffers<D>)
    requires Reads(calendar)
    ensures OffersFromDict(calendar, OffersToDict(calendar, o)) == Some(o)
  {
    if o.links.Some? {
      OfferLinksRoundTrip(o.links.value);
    }
    if o.embedded.Some? {
      EmbeddedRoundTrip(calendar, o.embedded.value);
    }
    FieldRoundTrip(OfferLinksToDict, OfferLinksFromDict, o.links);
    FieldRoundTrip(EmbeddedToDict(calendar), EmbeddedFromDict(calendar), o.embedded);
  }

  /** Re-encoding what was decoded from any JSON loses nothing the decoder sees. */
  lemma OffersReencode<D(!new)>(calendar: Calendar<D>, x: Json)
    requires Reads(calendar) && OffersFromDict(calendar, x).Some?
    ensures OffersFromDict(calendar, OffersToDict(calendar, OffersFromDict(calendar, x).value))
         == OffersFromDict(calendar, x)
  {
    OffersRoundTrip(calendar, OffersFromDict(calendar, x).value);
  }

  // ------------------------------------------------------------ balances

  datatype Balance = Balance(
    balance: Option<string>,
    liquidityPoolId: Option<string>,
    limit: Option<string>,
    lastModifiedLedger: Option<int>,
    isAuthorized: Option<bool>,
    isAuthorizedToMaintainLiabilities: Option<bool>,
    assetType: Option<string>,
    buyingLiabilities: Option<string>,
    sellingLiabilities: Option<string>,
    assetCode: Option<string>,
    assetIssuer: Option<string>)

  function BalanceToDict(b: Balance): Json {
    JDict(map[
      "balance" := Field(Str, b.balance),
      "liquidity_pool_id" := Field(Str, b.liquidityPoolId),
      "limit" := Field(Str, b.limit),
      "last_modified_ledger" := Field(Int, b.lastModifiedLedger),
      "is_authorized" := Field(Bool, b.isAuthorized),
      "is_authorized_to_maintain_liabilities" := Field(Bool, b.isAuthorizedToMaintainLiabilities),
      "asset_type" := Field(Str, b.assetType),
      "buying_liabilities" := Field(Str, b.buyingLiabilities),
      "selling_liabilities" := Field(Str, b.sellingLiabilities),
      "asset_code" := Field(Str, b.assetCode),
      "asset_issuer" := Field(Str, b.assetIssuer)])
  }

  // The native asset has a code, whatever the JSON says.
  function BalanceFromDict(x: Json): Option<Balance> {
    if !x.JDict? then None
    else
      var balance :- Optional(FromStr, Get(x, "balance"));
      var liquidityPoolId :- Optional(FromStr, Get(x, "liquidity_pool_id"));
      var limit :- Optional(FromStr, Get(x, "limit"));
      var lastModifiedLedger :- Optional(FromInt, Get(x, "last_modified_ledger"));
      var isAuthorized :- Optional(FromBool, Get(x, "is_authorized"));
      var maintains :- Optional(FromBool, Get(x, "is_authorized_to_maintain_liabilities"));
      var assetType :- Optional(FromStr, Get(x, "asset_type"));
      var buyingLiabilities :- Optional(FromStr, Get(x, "buying_liabilities"));
      var sellingLiabilities :- Optional(FromStr, Get(x, "selling_liabilities"));
      var assetCode :- Optional(FromStr, Get(x, "asset_code"));
      var assetIssuer :- Optional(FromStr, Get(x, "asset_issuer"));
      var code := if assetType == Some("native") then Some("XLM") else assetCode;
      Some(Balance(balance, liquidityPoolId, limit, lastModifiedLedger, isAuthorized, maintains, assetType,
                   buyingLiabilities, sellingLiabilities, code, assetIssuer))
  }

  predicate NativeIsXlm(b: Balance) {
    b.assetType == Some("native") ==> b.assetCode == Some("XLM")
  }

  lemma BalanceFields(b: Balance)
    ensures var x := BalanceToDict(b);
      && Get(x, "balance") == Field(Str, b.balance)
      && Get(x, "liquidity_pool_id") == Field(Str, b.liquidityPoolId)
      && Get(x, "limit") == Field(Str, b.limit)
      && Get(x, "last_modified_ledger") == Field(Int, b.lastModifiedLedger)
      && Get(x, "is_authorized") == Field(Bool, b.isAuthorized)
      && Get(x, "is_authorized_to_maintain_liabilities") == Field(Bool, b.isAuthorizedToMaintainLiabilities)
  {
  }

  lemma MoreBalanceFields(b: Balance)
    ensures var x := BalanceToDict(b);
      && Get(x, "asset_type") == Field(Str, b.assetType)
      && Get(x, "buying_liabilities") == Field(Str, b.buyingLiabilities)
      && Get(x, "selling_liabilities") == Field(Str, b.sellingLiabilities)
      && Get(x, "asset_code") == Field(Str, b.assetCode)
      && Get(x, "asset_issuer") == Field(Str, b.assetIssuer)
  {
  }

  lemma BalanceFieldsDecode(b: Balance, x: Json)
    requires x == BalanceToDict(b)
    ensures Optional(FromStr, Get(x, "balance")) == Some(b.balance)
    ensures Optional(FromStr, Get(x, "liquidity_pool_id")) == Some(b.liquidityPoolId)
    ensures Optional(FromStr, Get(x, "limit")) == Some(b.limit)
    ensures Optional(FromInt, Get(x, "last_modified_ledger")) == Some(b.lastModifiedLedger)
    ensures Optional(FromBool, Get(x, "is_authorized")) == Some(b.isAuthorized)
    ensures Optional(FromBool, Get(x, "is_authorized_to_maintain_liabilities"))
         == Some(b.isAuthorizedToMaintainLiabilities)
  {
    BalanceFields(b);
    StrRoundTrip(b.balance);
    StrRoundTrip(b.liquidityPoolId);
    StrRoundTrip(b.limit);
    IntRoundTrip(b.lastModifiedLedger);
    FieldRoundTrip(Bool, FromBool, b.isAuthorized);
    FieldRoundTrip(Bool, FromBool, b.isAuthorizedToMaintainLiabilities);
  }

  lemma MoreBalanceFieldsDecode(b: Balance, x: Json)
    requires x == BalanceToDict(b)
    ensures Optional(FromStr, Get(x, "asset_type")) == Some(b.assetType)
    ensures Optional(FromStr, Get(x, "buying_liabilities")) == Some(b.buyingLiabilities)
    ensures Optional(FromStr, Get(x, "selling_liabilities")) == Some(b.sellingLiabilities)
    ensures Optional(FromStr, Get(x, "asset_code")) == Some(b.assetCode)
    ensures Optional(FromStr, Get(x, "asset_issuer")) == Some(b.assetIssuer)
  {
    MoreBalanceFields(b);
    StrRoundTrip(b.assetType);
    StrRoundTrip(b.buyingLiabilities);
    StrRoundTrip(b.sellingLiabilities);
    StrRoundTrip(b.assetCode);
    StrRoundTrip(b.assetIssuer);
  }

  /** A balance comes back if and only if a native one carries the code XLM. */
  lemma BalanceRoundTripIff(b: Balance)
    ensures BalanceFromDict(BalanceToDict(b)) == Some(b) <==> NativeIsXlm(b)
  {
    var x := BalanceToDict(b);
    BalanceFieldsDecode(b, x);
    MoreBalanceFieldsDecode(b, x);
  }

  lemma DecodedBalanceIsNormal(x: Json)
    requires BalanceFromDict(x).Some?
    ensures NativeIsXlm(BalanceFromDict(x).value)
  {
  }

  /** What the decoder makes of any JSON survives encoding and decoding again. */
  lemma BalanceReencode(x: Json)
    requires BalanceFromDict(x).Some?
    ensures BalanceFromDict(BalanceToDict(BalanceFromDict(x).value)) == BalanceFromDict(x)
  {
    DecodedBalanceIsNormal(x);
    BalanceRoundTripIff(BalanceFromDict(x).value);
  }
}

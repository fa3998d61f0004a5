/**
 * The request and response schemas of cameras: which JSON bodies `CameraCreate` and
 * `CameraUpdate` accept, with which defaults, and the defaults of `CameraPublic`.
 */
module CameraSchema {
  import opened Wrappers
  import opened Http
  import opened Values
  import opened Fields

  const NameLen := Len(1, Some(100))
  const ShortLen := Len(0, Some(50))
  const StoryLen := Len(0, Some(1000))

  /** The values the `condition` pattern `^(mint|excellent|good|fair|poor|for_parts)$` admits. */
  const Conditions: set<string> := {"mint", "excellent", "good", "fair", "poor", "for_parts"}

  /** The optional descriptive texts of a camera. */
  datatype Details = Details(
    year: Option<string>, cameraType: Option<string>, filmFormat: Option<string>,
    condition: Option<string>, acquisitionStory: Option<string>)

  /** `CameraCreate`; market values are whole amounts here. */
  datatype CameraCreate = CameraCreate(
    brandName: string, model: string, details: Details,
    technicalSpecs: Option<map<string, Json>>, marketValueMin: Option<int>, marketValueMax: Option<int>,
    isForSale: bool, isForTrade: bool, isPublic: bool)

  predicate ValidDetails(d: Details) {
    && (d.year.Some? ==> Fits(d.year.value, ShortLen))
    && (d.cameraType.Some? ==> Fits(d.cameraType.value, ShortLen))
    && (d.filmFormat.Some? ==> Fits(d.filmFormat.value, ShortLen))
    && (d.condition.Some? ==> d.condition.value in Conditions)
    && (d.acquisitionStory.Some? ==> Fits(d.acquisitionStory.value, StoryLen))
  }

  predicate ValidCreate(c: CameraCreate) {
    Fits(c.brandName, NameLen) && Fits(c.model, NameLen) && ValidDetails(c.details)
  }

  /** An optional `condition`: `null`, missing, or one of the six grades. */
  function OptCondition(body: Row): (r: Outcome<Option<string>>)
    ensures r.Ok? <==> Absent(body, "condition") || (Get(body, "condition").JStr? && Get(body, "condition").s in Conditions)
    ensures r.Ok? ==> OfOpt(r.value) == Get(body, "condition")
    ensures r.Fail? ==> r.status == Unprocessable
  {
    var v := Get(body, "condition");
    if v == JNull then Ok(None) else if v.JStr? && v.s in Conditions then Ok(Some(v.s)) else Fail(Unprocessable)
  }

  /** The five optional texts, each under its own bound. */
  function ParseDetails(body: Row): (r: Outcome<Details>)
    ensures r.Ok? ==> ValidDetails(r.value)
    ensures r.Fail? ==> r.status == Unprocessable
    ensures Get(body, "condition").JStr? && Get(body, "condition").s !in Conditions ==> r.Fail?
    ensures Get(body, "acquisition_story").JStr? && |Get(body, "acquisition_story").s| > 1000 ==> r.Fail?
    ensures Get(body, "year").JStr? && |Get(body, "year").s| > 50 ==> r.Fail?
  {
    var year := OptStr(body, "year", ShortLen);
    var kind := OptStr(body, "camera_type", ShortLen);
    var format := OptStr(body, "film_format", ShortLen);
    var condition := OptCondition(body);
    var story := OptStr(body, "acquisition_story", StoryLen);
    if year.Fail? || kind.Fail? || format.Fail? || condition.Fail? || story.Fail? then Fail(Unprocessable)
    else Ok(Details(year.value, kind.value, format.value, condition.value, story.value))
  }

  /**
   * Validating a body as `CameraCreate`: brand and model of 1 to 100 characters, the texts
   * within their bounds, and the three flags defaulting to not for sale, not for trade, public.
   */
  function ParseCreate(body: Row): (r: Outcome<CameraCreate>)
    ensures r.Ok? ==> ValidCreate(r.value)
    ensures r.Fail? ==> r.status == Unprocessable
    ensures !(Get(body, "brand_name").JStr? && Fits(Get(body, "brand_name").s, NameLen)) ==> r.Fail?
    ensures !(Get(body, "model").JStr? && Fits(Get(body, "model").s, NameLen)) ==> r.Fail?
    ensures r.Ok? && "is_for_sale" !in body ==> !r.value.isForSale
    ensures r.Ok? && "is_for_trade" !in body ==> !r.value.isForTrade
    ensures r.Ok? && "is_public" !in body ==> r.value.isPublic
  {
    var brand := ReqStr(body, "brand_name", NameLen);
    var model := ReqStr(body, "model", NameLen);
    var details := ParseDetails(body);
    var specs := OptObj(body, "technical_specs");
    var low := OptInt(body, "market_value_min");
    var high := OptInt(body, "market_value_max");
    var sale := BoolOr(body, "is_for_sale", false);
    var trade := BoolOr(body, "is_for_trade", false);
    var public := BoolOr(body, "is_public", true);
    if brand.Fail? || model.Fail? || details.Fail? || specs.Fail? || low.Fail? || high.Fail? ||
       sale.Fail? || trade.Fail? || public.Fail? then Fail(Unprocessable)
    else
      Ok(CameraCreate(brand.value, model.value, details.value, specs.value, low.value, high.value,
                      sale.value, trade.value, public.value))
  }

  /** `model_dump()` of a `CameraCreate`: every field, `None` ones as `null`. */
  function DumpCreate(c: CameraCreate): Row {
    map["year" := OfOpt(c.details.year), "camera_type" := OfOpt(c.details.cameraType),
        "film_format" := OfOpt(c.details.filmFormat), "condition" := OfOpt(c.details.condition),
        "acquisition_story" := OfOpt(c.details.acquisitionStory),
        "brand_name" := JStr(c.brandName), "model" := JStr(c.model), "technical_specs" := OfObj(c.technicalSpecs),
        "market_value_min" := OfInt(c.marketValueMin), "market_value_max" := OfInt(c.marketValueMax),
        "is_for_sale" := JBool(c.isForSale), "is_for_trade" := JBool(c.isForTrade), "is_public" := JBool(c.isPublic)]
  }

  /** The texts read back from a body that holds their dumped values. */
  lemma DetailsRoundTrip(d: Details, body: Row)
    requires ValidDetails(d)
    requires Get(body, "year") == OfOpt(d.year) && Get(body, "camera_type") == OfOpt(d.cameraType)
    requires Get(body, "film_format") == OfOpt(d.filmFormat) && Get(body, "condition") == OfOpt(d.condition)
    requires Get(body, "acquisition_story") == OfOpt(d.acquisitionStory)
    ensures ParseDetails(body) == Ok(d)
  {
  }

  /** A body holding the values of a valid camera parses to that camera. */
  lemma ParseCreateOf(body: Row, c: CameraCreate)
    requires ValidCreate(c)
    requires ParseDetails(body) == Ok(c.details)
    requires Get(body, "brand_name") == JStr(c.brandName) && Get(body, "model") == JStr(c.model)
    requires Get(body, "technical_specs") == OfObj(c.technicalSpecs)
    requires Get(body, "market_value_min") == OfInt(c.marketValueMin)
    requires Get(body, "market_value_max") == OfInt(c.marketValueMax)
    requires Get(body, "is_for_sale") == JBool(c.isForSale) && Get(body, "is_for_trade") == JBool(c.isForTrade)
    requires Get(body, "is_public") == JBool(c.isPublic)
    ensures ParseCreate(body) == Ok(c)
  {
  }

  /** The texts of a dump hold the dumped values. */
  lemma CreateDumpTexts(c: CameraCreate)
    ensures var body := DumpCreate(c);
      && Get(body, "year") == OfOpt(c.details.year) && Get(body, "camera_type") == OfOpt(c.details.cameraType)
      && Get(body, "film_format") == OfOpt(c.details.filmFormat)
  {
  }

  /** The remaining texts of a dump hold the dumped values. */
  lemma CreateDumpStory(c: CameraCreate)
    ensures var body := DumpCreate(c);
      && Get(body, "condition") == OfOpt(c.details.condition)
      && Get(body, "acquisition_story") == OfOpt(c.details.acquisitionStory)
  {
  }

  /** The names and specs of a dump hold the dumped values. */
  lemma CreateDumpNames(c: CameraCreate)
    ensures var body := DumpCreate(c);
      && Get(body, "brand_name") == JStr(c.brandName) && Get(body, "model") == JStr(c.model)
      && Get(body, "technical_specs") == OfObj(c.technicalSpecs)
  {
  }

  /** A valid camera survives dumping and validating again. */
  lemma CreateRoundTrip(c: CameraCreate)
    requires ValidCreate(c)
    ensures ParseCreate(DumpCreate(c)) == Ok(c)
  {
    var body := DumpCreate(c);
    CreateDumpTexts(c);
    CreateDumpStory(c);
    CreateDumpNames(c);
    DetailsRoundTrip(c.details, body);
    ParseCreateOf(body, c);
  }

  /** The schema does not order the market values: a minimum above the maximum is accepted. */
  lemma MarketValuesUnordered(brand: string, model: string)
    requires Fits(brand, NameLen) && Fits(model, NameLen)
    ensures var body := map["brand_name" := JStr(brand), "model" := JStr(model),
                             "market_value_min" := JInt(500), "market_value_max" := JInt(100)];
      ParseCreate(body).Ok? && ParseCreate(body).value.marketValueMin == Some(500) &&
      ParseCreate(body).value.marketValueMax == Some(100)
  {
  }

  /** `CameraUpdate`: every field optional; present values obey the create bounds. */
  datatype CameraUpdate = CameraUpdate(
    brandName: Option<string>, model: Option<string>, details: Details,
    technicalSpecs: Option<map<string, Json>>, marketValueMin: Option<int>, marketValueMax: Option<int>,
    isForSale: Option<bool>, isForTrade: Option<bool>, isPublic: Option<bool>)

  predicate ValidUpdate(u: CameraUpdate) {
    (u.brandName.Some? ==> Fits(u.brandName.value, NameLen)) && (u.model.Some? ==> Fits(u.model.value, NameLen)) &&
    ValidDetails(u.details)
  }

  function ParseUpdate(body: Row): (r: Outcome<CameraUpdate>)
    ensures r.Ok? ==> ValidUpdate(r.value)
    ensures r.Fail? ==> r.status == Unprocessable
    ensures Get(body, "brand_name").JStr? && !Fits(Get(body, "brand_name").s, NameLen) ==> r.Fail?
    ensures Get(body, "condition").JStr? && Get(body, "condition").s !in Conditions ==> r.Fail?
    ensures body == map[] ==> r.Ok? && r.value.isPublic.None? && r.value.brandName.None?
  {
    var brand := OptStr(body, "brand_name", NameLen);
    var model := OptStr(body, "model", NameLen);
    var details := ParseDetails(body);
    var specs := OptObj(body, "technical_specs");
    var low := OptInt(body, "market_value_min");
    var high := OptInt(body, "market_value_max");
    var sale := OptBool(body, "is_for_sale");
    var trade := OptBool(body, "is_for_trade");
    var public := OptBool(body, "is_public");
    if brand.Fail? || model.Fail? || details.Fail? || specs.Fail? || low.Fail? || high.Fail? ||
       sale.Fail? || trade.Fail? || public.Fail? then Fail(Unprocessable)
    else
      Ok(CameraUpdate(brand.value, model.value, details.value, specs.value, low.value, high.value,
                      sale.value, trade.value, public.value))
  }

  /** `model_dump()` of a `CameraUpdate`. */
  function DumpUpdate(u: CameraUpdate): Row {
    map["year" := OfOpt(u.details.year), "camera_type" := OfOpt(u.details.cameraType),
        "film_format" := OfOpt(u.details.filmFormat), "condition" := OfOpt(u.details.condition),
        "acquisition_story" := OfOpt(u.details.acquisitionStory),
        "brand_name" := OfOpt(u.brandName), "model" := OfOpt(u.model), "technical_specs" := OfObj(u.technicalSpecs),
        "market_value_min" := OfInt(u.marketValueMin), "market_value_max" := OfInt(u.marketValueMax),
        "is_for_sale" := OfBool(u.isForSale), "is_for_trade" := OfBool(u.isForTrade), "is_public" := OfBool(u.isPublic)]
  }

  /** A body holding the values of a valid update parses to that update. */
  lemma ParseUpdateOf(body: Row, u: CameraUpdate)
    requires ValidUpdate(u)
    requires ParseDetails(body) == Ok(u.details)
    requires Get(body, "brand_name") == OfOpt(u.brandName) && Get(body, "model") == OfOpt(u.model)
    requires Get(body, "technical_specs") == OfObj(u.technicalSpecs)
    requires Get(body, "market_value_min") == OfInt(u.marketValueMin)
    requires Get(body, "market_value_max") == OfInt(u.marketValueMax)
    requires Get(body, "is_for_sale") == OfBool(u.isForSale) && Get(body, "is_for_trade") == OfBool(u.isForTrade)
    requires Get(body, "is_public") == OfBool(u.isPublic)
    ensures ParseUpdate(body) == Ok(u)
  {
  }

  /** The texts of an update dump hold the dumped values. */
  lemma UpdateDumpTexts(u: CameraUpdate)
    ensures var body := DumpUpdate(u);
      && Get(body, "year") == OfOpt(u.details.year) && Get(body, "camera_type") == OfOpt(u.details.cameraType)
      && Get(body, "film_format") == OfOpt(u.details.filmFormat)
  {
  }

  /** The remaining texts of an update dump hold the dumped values. */
  lemma UpdateDumpStory(u: CameraUpdate)
    ensures var body := DumpUpdate(u);
      && Get(body, "condition") == OfOpt(u.details.condition)
      && Get(body, "acquisition_story") == OfOpt(u.details.acquisitionStory)
  {
  }

  /** The names and specs of an update dump hold the dumped values. */
  lemma UpdateDumpNames(u: CameraUpdate)
    ensures var body := DumpUpdate(u);
      && Get(body, "brand_name") == OfOpt(u.brandName) && Get(body, "model") == OfOpt(u.model)
      && Get(body, "technical_specs") == OfObj(u.technicalSpecs)
  {
  }

  /** The flags of an update dump hold the dumped values. */
  lemma UpdateDumpFlags(u: CameraUpdate)
    ensures var body := DumpUpdate(u);
      && Get(body, "is_for_sale") == OfBool(u.isForSale) && Get(body, "is_for_trade") == OfBool(u.isForTrade)
      && Get(body, "is_public") == OfBool(u.isPublic)
  {
  }

  /** A valid update survives dumping and validating again. */
  lemma UpdateRoundTrip(u: CameraUpdate)
    requires ValidUpdate(u)
    ensures ParseUpdate(DumpUpdate(u)) == Ok(u)
  {
    var body := DumpUpdate(u);
    UpdateDumpTexts(u);
    UpdateDumpStory(u);
    UpdateDumpNames(u);
    UpdateDumpFlags(u);
    DetailsRoundTrip(u.details, body);
    ParseUpdateOf(body, u);
  }

  /** The defaults `CameraPublic` gives the fields a row lacks. */
  const PublicDefaults: Row := map[
    "year" := JNull, "camera_type" := JNull, "film_format" := JNull, "condition" := JNull,
    "acquisition_story" := JNull, "technical_specs" := JNull, "market_value_min" := JNull,
    "market_value_max" := JNull, "is_for_sale" := JBool(false), "is_for_trade" := JBool(false),
    "is_public" := JBool(true), "view_count" := JInt(0), "images" := JList([]), "owner_username" := JNull,
    "owner_avatar" := JNull, "like_count" := JInt(0), "comment_count" := JInt(0), "is_liked" := JBool(false)]

  /** A row as `CameraPublic` returns it. */
  function PublicCamera(row: Row): Row {
    Fill(row, PublicDefaults)
  }

  /** Without them in the row, images are empty, counts 0 and `is_liked` false; present fields are kept. */
  lemma PublicCameraDefaults(row: Row)
    ensures var r := PublicCamera(row);
      && (forall k :: k in row ==> k in r && r[k] == row[k])
      && ("images" !in row ==> r["images"] == JList([]))
      && ("like_count" !in row ==> r["like_count"] == JInt(0))
      && ("comment_count" !in row ==> r["comment_count"] == JInt(0))
      && ("is_liked" !in row ==> r["is_liked"] == JBool(false))
  {
    assert "images" in PublicDefaults && "like_count" in PublicDefaults;
    assert "comment_count" in PublicDefaults && "is_liked" in PublicDefaults;
  }
}

/**
 * `MattermostAction` (actions/mattermost.rb): the checks on its options and the
 * JSON body `send_message` posts to the incoming webhook. The POST itself and its
 * outcome are not part of this model.
 */
module Mattermost {
  import opened Wrappers
  import opened RubyText

  /** The JSON values a body can hold; attachments and props are passed through as given. */
  datatype Json = JNull | JString(text: string) | JArray(items: seq<Json>) | JObject(fields: seq<(string, Json)>)

  const MissingFields: string := "You must set a 'text' or non-empty 'attachments' in order to send a message"
  const NotCustomType: string := "The type must start with 'custom_'"

  /** `has_required_fields?`: a text, or else a non-empty list of attachments. */
  predicate HasRequiredFields(text: Option<string>, attachments: Option<seq<Json>>) {
    text.Some? || (attachments.Some? && attachments.value != [])
  }

  /** `is_custom_type?`: an absent type passes; a given one must start with `custom_`. */
  predicate IsCustomType(postType: Option<string>) {
    postType.None? || StartsWith(postType.value, "custom_")
  }

  /** The verify block of the `type` option. */
  function VerifyType(postType: Option<string>): (r: Option<string>)
    ensures r.None? <==> postType.None? || StartsWith(postType.value, "custom_")
    ensures r.Some? ==> r.value == NotCustomType
  {
    if IsCustomType(postType) then None else Some(NotCustomType)
  }

  /** A JSON string, or null for an absent value. */
  function StringOrNull(s: Option<string>): Json {
    match s
    case None => JNull
    case Some(v) => JString(v)
  }

  /** The keys of the body, in order. */
  function Keys(body: seq<(string, Json)>): (r: seq<string>)
    ensures |r| == |body|
    ensures forall i | 0 <= i < |body| :: r[i] == body[i].0
  {
    seq(|body|, i requires 0 <= i < |body| => body[i].0)
  }

  lemma KeysJoin(a: seq<(string, Json)>, b: seq<(string, Json)>)
    ensures Keys(a + b) == Keys(a) + Keys(b)
  {
    var l, r := Keys(a + b), Keys(a) + Keys(b);
    assert |l| == |r|;
    forall i | 0 <= i < |l| ensures l[i] == r[i] {
      if i < |a| {
        assert (a + b)[i] == a[i];
      } else {
        assert (a + b)[i] == b[i - |a|];
      }
    }
  }

  function AttachmentsJson(attachments: Option<seq<Json>>): Option<Json> {
    match attachments
    case None => None
    case Some(a) => Some(JArray(a))
  }

  function StringJson(s: Option<string>): Option<Json> {
    match s
    case None => None
    case Some(v) => Some(JString(v))
  }

  /** `body.merge!(key => value) unless value.nil?` for a key the body does not hold yet. */
  function Merge(body: seq<(string, Json)>, key: string, value: Option<Json>): (r: seq<(string, Json)>)
    ensures value.None? ==> r == body
    ensures value.Some? ==> r == body + [(key, value.value)]
  {
    match value
    case None => body
    case Some(v) => body + [(key, v)]
  }

  /** The body `send_message` posts, as its entries in insertion order. */
  function Body(text: Option<string>, username: string, iconUrl: string, channel: Option<string>,
                iconEmoji: Option<string>, attachments: Option<seq<Json>>, props: Option<Json>,
                postType: Option<string>): seq<(string, Json)>
  {
    var required := [("text", StringOrNull(text)), ("username", JString(username)), ("icon_url", JString(iconUrl))];
    var b1 := Merge(required, "channel", StringJson(channel));
    var b2 := Merge(b1, "icon_emoji", StringJson(iconEmoji));
    var b3 := Merge(b2, "attachments", AttachmentsJson(attachments));
    var b4 := Merge(b3, "props", props);
    Merge(b4, "type", StringJson(postType))
  }

  /** The value the body gives an optional key: the given value, or no entry at all. */
  ghost predicate Gives(body: seq<(string, Json)>, key: string, value: Option<Json>) {
    forall v :: (key, v) in body <==> value == Some(v)
  }

  /** No entry of the body has `key`. */
  predicate NoKey(body: seq<(string, Json)>, key: string) {
    forall i | 0 <= i < |body| :: body[i].0 != key
  }

  /** Merging a new key gives it exactly the merged value, and keeps every other key absent. */
  lemma MergeNew(body: seq<(string, Json)>, key: string, value: Option<Json>)
    requires NoKey(body, key)
    ensures Gives(Merge(body, key, value), key, value)
    ensures forall k | k != key && NoKey(body, k) :: NoKey(Merge(body, key, value), k)
  {
  }

  /** Merging appends the key iff a value is given. */
  lemma MergeKeys(body: seq<(string, Json)>, key: string, value: Option<Json>)
    ensures Keys(Merge(body, key, value)) == Keys(body) + (if value.Some? then [key] else [])
    ensures |Merge(body, key, value)| >= |body| && Merge(body, key, value)[..|body|] == body
  {
    if value.Some? {
      KeysJoin(body, [(key, value.value)]);
    }
  }

  /** Merging one key leaves what the body gives any other key. */
  lemma MergeOther(body: seq<(string, Json)>, key: string, value: Option<Json>, k: string, x: Option<Json>)
    requires k != key && Gives(body, k, x)
    ensures Gives(Merge(body, key, value), k, x)
  {
  }

  /**
   * The body holds text (null when absent), username and icon_url first, then
   * each optional key iff its value is given, in the order channel, icon_emoji,
   * attachments, props, type.
   */
  lemma BodyKeys(text: Option<string>, username: string, iconUrl: string, channel: Option<string>,
                 iconEmoji: Option<string>, attachments: Option<seq<Json>>, props: Option<Json>,
                 postType: Option<string>)
    ensures var b := Body(text, username, iconUrl, channel, iconEmoji, attachments, props, postType);
      && b[..3] == [("text", StringOrNull(text)), ("username", JString(username)), ("icon_url", JString(iconUrl))]
      && Keys(b) == ["text", "username", "icon_url"] +
           (if channel.Some? then ["channel"] else []) +
           (if iconEmoji.Some? then ["icon_emoji"] else []) +
           (if attachments.Some? then ["attachments"] else []) +
           (if props.Some? then ["props"] else []) +
           (if postType.Some? then ["type"] else [])
  {
    var required: seq<(string, Json)> :=
      [("text", StringOrNull(text)), ("username", JString(username)), ("icon_url", JString(iconUrl))];
    assert Keys(required) == ["text", "username", "icon_url"];
    var b1 := Merge(required, "channel", StringJson(channel));
    MergeKeys(required, "channel", StringJson(channel));
    var b2 := Merge(b1, "icon_emoji", StringJson(iconEmoji));
    MergeKeys(b1, "icon_emoji", StringJson(iconEmoji));
    var b3 := Merge(b2, "attachments", AttachmentsJson(attachments));
    MergeKeys(b2, "attachments", AttachmentsJson(attachments));
    var b4 := Merge(b3, "props", props);
    MergeKeys(b3, "props", props);
    var b5 := Merge(b4, "type", StringJson(postType));
    MergeKeys(b4, "type", StringJson(postType));
    assert Body(text, username, iconUrl, channel, iconEmoji, attachments, props, postType) == b5;
    assert b5[..3] == required;
  }

  /** The body before props and type: channel, icon_emoji and attachments carry their given values. */
  lemma LeadingValues(text: Option<string>, username: string, iconUrl: string, channel: Option<string>,
                      iconEmoji: Option<string>, attachments: Option<seq<Json>>)
    ensures var required := [("text", StringOrNull(text)), ("username", JString(username)), ("icon_url", JString(iconUrl))];
      var b3 := Merge(Merge(Merge(required, "channel", StringJson(channel)), "icon_emoji", StringJson(iconEmoji)),
                      "attachments", AttachmentsJson(attachments));
      && Gives(b3, "channel", StringJson(channel))
      && Gives(b3, "icon_emoji", StringJson(iconEmoji))
      && Gives(b3, "attachments", AttachmentsJson(attachments))
      && NoKey(b3, "props") && NoKey(b3, "type")
  {
    var required: seq<(string, Json)> :=
      [("text", StringOrNull(text)), ("username", JString(username)), ("icon_url", JString(iconUrl))];
    assert NoKey(required, "channel") && NoKey(required, "icon_emoji") && NoKey(required, "attachments") &&
           NoKey(required, "props") && NoKey(required, "type");
    var b1 := Merge(required, "channel", StringJson(channel));
    MergeNew(required, "channel", StringJson(channel));
    var b2 := Merge(b1, "icon_emoji", StringJson(iconEmoji));
    MergeNew(b1, "icon_emoji", StringJson(iconEmoji));
    MergeOther(b1, "icon_emoji", StringJson(iconEmoji), "channel", StringJson(channel));
    MergeNew(b2, "attachments", AttachmentsJson(attachments));
    MergeOther(b2, "attachments", AttachmentsJson(attachments), "channel", StringJson(channel));
    MergeOther(b2, "attachments", AttachmentsJson(attachments), "icon_emoji", StringJson(iconEmoji));
  }

  /** Each optional key of the body carries exactly the value given for it, and only when one is given. */
  lemma BodyValues(text: Option<string>, username: string, iconUrl: string, channel: Option<string>,
                   iconEmoji: Option<string>, attachments: Option<seq<Json>>, props: Option<Json>,
                   postType: Option<string>)
    ensures var b := Body(text, username, iconUrl, channel, iconEmoji, attachments, props, postType);
      && Gives(b, "channel", StringJson(channel))
      && Gives(b, "icon_emoji", StringJson(iconEmoji))
      && Gives(b, "attachments", AttachmentsJson(attachments))
      && Gives(b, "props", props)
      && Gives(b, "type", StringJson(postType))
  {
    var required: seq<(string, Json)> :=
      [("text", StringOrNull(text)), ("username", JString(username)), ("icon_url", JString(iconUrl))];
    var b3 := Merge(Merge(Merge(required, "channel", StringJson(channel)), "icon_emoji", StringJson(iconEmoji)),
                    "attachments", AttachmentsJson(attachments));
    LeadingValues(text, username, iconUrl, channel, iconEmoji, attachments);
    var b4 := Merge(b3, "props", props);
    MergeNew(b3, "props", props);
    MergeOther(b3, "props", props, "channel", StringJson(channel));
    MergeOther(b3, "props", props, "icon_emoji", StringJson(iconEmoji));
    MergeOther(b3, "props", props, "attachments", AttachmentsJson(attachments));
    var b5 := Merge(b4, "type", StringJson(postType));
    MergeNew(b4, "type", StringJson(postType));
    MergeOther(b4, "type", StringJson(postType), "channel", StringJson(channel));
    MergeOther(b4, "type", StringJson(postType), "icon_emoji", StringJson(iconEmoji));
    MergeOther(b4, "type", StringJson(postType), "attachments", AttachmentsJson(attachments));
    MergeOther(b4, "type", StringJson(postType), "props", props);
    assert Body(text, username, iconUrl, channel, iconEmoji, attachments, props, postType) == b5;
  }

  /**
   * `send_message` up to the POST: it rejects a message with neither text nor
   * attachments before building anything, then builds the body field by field.
   */
  method SendMessage(text: Option<string>, username: string, iconUrl: string, channel: Option<string>,
                     iconEmoji: Option<string>, attachments: Option<seq<Json>>, props: Option<Json>,
                     postType: Option<string>) returns (r: Result<seq<(string, Json)>>)
    ensures r.Err? <==> !HasRequiredFields(text, attachments)
    ensures r.Err? ==> r.message == MissingFields
    ensures r.Ok? ==> r.value == Body(text, username, iconUrl, channel, iconEmoji, attachments, props, postType)
  {
    if !HasRequiredFields(text, attachments) {
      return Err(MissingFields);
    }
    var body := [("text", StringOrNull(text)), ("username", JString(username)), ("icon_url", JString(iconUrl))];
    if channel.Some? {
      body := body + [("channel", JString(channel.value))];
    }
    if iconEmoji.Some? {
      body := body + [("icon_emoji", JString(iconEmoji.value))];
    }
    if attachments.Some? {
      body := body + [("attachments", JArray(attachments.value))];
    }
    if props.Some? {
      body := body + [("props", props.value)];
    }
    if postType.Some? {
      body := body + [("type", JString(postType.value))];
    }
    return Ok(body);
  }
}

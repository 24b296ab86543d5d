/** The profile validator: `validateHead` (HeadExtractor.java lines 333-355).

    Base64 decoding (`java.util.Base64`) and JSON parsing (Jackson's
    `readTree`) are library calls; the model receives their composition as
    `decode`, which gives the parsed tree or `None` when either throws (the
    `catch (Exception e)` turns every such failure into `false`). */
module Validator {
  import opened Options

  /** A parsed JSON tree. */
  datatype Json =
    | JNull
    | JBool(b: bool)
    | JNumber(digits: string)
    | JString(s: string)
    | JArray(items: seq<Json>)
    | JObject(fields: map<string, Json>)

  /** Jackson's `JsonNode.get(fieldName)`: only an object node has fields;
      every other node answers null. */
  function Get(node: Json, key: string): (r: Option<Json>)
    ensures r.Some? <==> node.JObject? && key in node.fields
  {
    if node.JObject? && key in node.fields then Some(node.fields[key]) else None
  }

  /** The shape of a player profile: an object whose "textures" is an object
      whose "SKIN" is an object whose "url" is a string.  Since `get` answers
      only on an object, this is exactly the path textures/SKIN/url through
      `get` ending at a string node. */
  predicate IsProfile(node: Json)
    ensures IsProfile(node) <==>
      Get(node, "textures").Some? &&
      Get(Get(node, "textures").value, "SKIN").Some? &&
      Get(Get(Get(node, "textures").value, "SKIN").value, "url").Some? &&
      Get(Get(Get(node, "textures").value, "SKIN").value, "url").value.JString?
  {
    node.JObject? && "textures" in node.fields &&
    var textures := node.fields["textures"];
    textures.JObject? && "SKIN" in textures.fields &&
    var skin := textures.fields["SKIN"];
    skin.JObject? && "url" in skin.fields && skin.fields["url"].JString?
  }

  /** `validateHead` as written.  Line 346 tests `textures.isObject()` a
      second time where the SKIN node was meant; because `get` on a
      non-object answers null, the check still demands an object SKIN. */
  function ValidateHead(decode: string -> Option<Json>, head: string): (valid: bool)
    ensures valid <==> decode(head).Some? && IsProfile(decode(head).value)
  {
    match decode(head)
    case None => false
    case Some(node) =>
      if !node.JObject? then false
      else
        match Get(node, "textures")
        case None => false
        case Some(textures) =>
          if !textures.JObject? then false
          else
            match Get(textures, "SKIN")
            case None => false
            case Some(skin) =>
              if !textures.JObject? then false
              else
                match Get(skin, "url")
                case None => false
                case Some(url) => url.JString?
  }

  /** `{"textures":{"SKIN":{"url":"http://x"}}}` is a profile;
      `{"textures":{}}` and a non-object SKIN are not. */
  lemma ProfileExamples(decode: string -> Option<Json>, head: string)
    ensures decode(head) == Some(JObject(map["textures" := JObject(map["SKIN" := JObject(map["url" := JString("http://x")])])]))
            ==> ValidateHead(decode, head)
    ensures decode(head) == Some(JObject(map["textures" := JObject(map[])])) ==> !ValidateHead(decode, head)
    ensures decode(head) == Some(JObject(map["textures" := JObject(map["SKIN" := JString("http://x")])]))
            ==> !ValidateHead(decode, head)
    ensures decode(head) == None ==> !ValidateHead(decode, head)
  {
  }
}

/** The tag split shared by the three loaders: a way's tags are divided into
    profile tags (routing-relevant) and meta tags (descriptive); the rest is
    dropped. */
module TagClassifier {
  import opened Base

  /** The tags whose key is on the way's profile whitelist. */
  function ProfilePart(tags: Tags, whitelist: set<string>): (r: Tags)
    ensures r.Keys <= tags.Keys
  {
    map k | k in tags && k in whitelist :: tags[k]
  }

  /** The tags not on the way's whitelist but on the vehicles' profile or meta whitelist. */
  function MetaPart(vehicles: Vehicles, tags: Tags, whitelist: set<string>): (r: Tags)
    ensures r.Keys <= tags.Keys
  {
    map k | k in tags && k !in whitelist && (vehicles.onProfileWhiteList(k) || vehicles.onMetaWhiteList(k)) :: tags[k]
  }

  /** The split: every tag goes to the profile part, to the meta part or nowhere,
      keeping its value; the two parts never share a key. */
  lemma SplitIsPartition(vehicles: Vehicles, tags: Tags, whitelist: set<string>)
    ensures ProfilePart(tags, whitelist).Keys !! MetaPart(vehicles, tags, whitelist).Keys
    ensures forall k :: k in ProfilePart(tags, whitelist) ==> ProfilePart(tags, whitelist)[k] == tags[k]
    ensures forall k :: k in MetaPart(vehicles, tags, whitelist) ==> MetaPart(vehicles, tags, whitelist)[k] == tags[k]
    ensures forall k :: k in tags ==>
      (k in ProfilePart(tags, whitelist) <==> k in whitelist) &&
      (k in MetaPart(vehicles, tags, whitelist) <==> k !in whitelist && (vehicles.onProfileWhiteList(k) || vehicles.onMetaWhiteList(k)))
    ensures forall k :: k in tags && k !in ProfilePart(tags, whitelist) && k !in MetaPart(vehicles, tags, whitelist) <==>
      k in tags && k !in whitelist && !vehicles.onProfileWhiteList(k) && !vehicles.onMetaWhiteList(k)
  {
  }

  /** The loop over a way's tags that fills the profile and meta collections. */
  method SplitTags(vehicles: Vehicles, tags: Tags, whitelist: set<string>) returns (profileTags: Tags, metaTags: Tags)
    ensures profileTags == ProfilePart(tags, whitelist)
    ensures metaTags == MetaPart(vehicles, tags, whitelist)
  {
    profileTags, metaTags := map[], map[];
    var todo := tags.Keys;
    while todo != {}
      invariant todo <= tags.Keys
      invariant profileTags == map k | k in tags && k !in todo && k in whitelist :: tags[k]
      invariant metaTags == map k | k in tags && k !in todo && k !in whitelist &&
        (vehicles.onProfileWhiteList(k) || vehicles.onMetaWhiteList(k)) :: tags[k]
      decreases todo
    {
      var key :| key in todo;
      if key in whitelist {
        profileTags := profileTags[key := tags[key]];
      } else if vehicles.onProfileWhiteList(key) {
        metaTags := metaTags[key := tags[key]];
      } else if vehicles.onMetaWhiteList(key) {
        metaTags := metaTags[key := tags[key]];
      }
      todo := todo - {key};
    }
  }
}

/**
 * CacheContentFilter: the projection applied to a post before it is written
 * into a cache or a bucket. It keeps the id and whichever of author, message
 * and data the configuration preserves; when all three are preserved it
 * hands the post back untouched.
 */
module CacheFilter {
  import opened Wrappers
  import opened Api

  /** The document keys of a stored post. */
  const IdKey := "_id"
  const AuthorKey := "_a"
  const MessageKey := "_m"
  const DataKey := "_d"

  /**
   * The key list the constructor builds: none at all when everything is
   * preserved, otherwise the id key followed by each preserved field's key.
   */
  function KeysFor(preserveAuthor: bool, preserveMessage: bool, preserveData: bool): Option<seq<string>> {
    if preserveAuthor && preserveMessage && preserveData then None
    else
      Some([IdKey] + (if preserveAuthor then [AuthorKey] else [])
                   + (if preserveMessage then [MessageKey] else [])
                   + (if preserveData then [DataKey] else []))
  }

  /**
   * A fresh, empty document read back as a post. Its id is never observed:
   * every key list starts with the id key, which overwrites it.
   */
  const Blank := Content(0, None, None, None)

  /** `copy.put(key, original.get(key))`: copy one field of the original. */
  function Put(copy: Content, key: string, original: Content): Content {
    if key == IdKey then copy.(id := original.id)
    else if key == AuthorKey then copy.(author := original.author)
    else if key == MessageKey then copy.(message := original.message)
    else if key == DataKey then copy.(data := original.data)
    else copy
  }

  /**
   * The copy after the loop over `keys`: a field is present exactly when
   * its key is listed, and then it carries the original's value.
   */
  function Project(keys: seq<string>, original: Content): (r: Content)
    ensures r.id == (if IdKey in keys then original.id else Blank.id)
    ensures r.author == (if AuthorKey in keys then original.author else None)
    ensures r.message == (if MessageKey in keys then original.message else None)
    ensures r.data == (if DataKey in keys then original.data else None)
  {
    if keys == [] then Blank
    else
      var front := keys[..|keys| - 1];
      assert keys == front + [keys[|keys| - 1]];
      Put(Project(front, original), keys[|keys| - 1], original)
  }

  class CacheContentFilter {
    /** The keys to copy, or None for the passthrough filter. */
    const preserveKeys: Option<seq<string>>

    constructor (preserveAuthor: bool, preserveMessage: bool, preserveData: bool)
      ensures preserveKeys == KeysFor(preserveAuthor, preserveMessage, preserveData)
    {
      if preserveAuthor && preserveMessage && preserveData {
        preserveKeys := None;
      } else {
        var keyList := [IdKey];
        if preserveAuthor {
          keyList := keyList + [AuthorKey];
        }
        assert keyList == [IdKey] + (if preserveAuthor then [AuthorKey] else []);
        if preserveMessage {
          keyList := keyList + [MessageKey];
        }
        assert keyList == [IdKey] + (if preserveAuthor then [AuthorKey] else [])
                                  + (if preserveMessage then [MessageKey] else []);
        if preserveData {
          keyList := keyList + [DataKey];
        }
        assert keyList == [IdKey] + (if preserveAuthor then [AuthorKey] else [])
                                  + (if preserveMessage then [MessageKey] else [])
                                  + (if preserveData then [DataKey] else []);
        preserveKeys := Some(keyList);
      }
    }

    /** `filterContent`: the post itself, or its projection onto the kept keys. */
    function FilterContent(toFilter: Content): (r: Content)
      ensures preserveKeys.None? ==> r == toFilter
      ensures preserveKeys.Some? ==>
        && r.id == (if IdKey in preserveKeys.value then toFilter.id else Blank.id)
        && r.author == (if AuthorKey in preserveKeys.value then toFilter.author else None)
        && r.message == (if MessageKey in preserveKeys.value then toFilter.message else None)
        && r.data == (if DataKey in preserveKeys.value then toFilter.data else None)
    {
      if preserveKeys.None? then toFilter else Project(preserveKeys.value, toFilter)
    }
  }

  /**
   * A filter built from three flags keeps the id, keeps each preserved field
   * with the original's value and drops every other field; with all three
   * flags set it returns the post unchanged.
   */
  lemma FilterKeepsChosenFields(f: CacheContentFilter, c: Content, preserveAuthor: bool, preserveMessage: bool, preserveData: bool)
    requires f.preserveKeys == KeysFor(preserveAuthor, preserveMessage, preserveData)
    ensures var r := f.FilterContent(c);
      && r.id == c.id
      && r.author == (if preserveAuthor then c.author else None)
      && r.message == (if preserveMessage then c.message else None)
      && r.data == (if preserveData then c.data else None)
      && (preserveAuthor && preserveMessage && preserveData ==> r == c)
  {
    if f.preserveKeys.Some? {
      var keys := f.preserveKeys.value;
      assert keys[0] == IdKey;
      assert AuthorKey in keys <==> preserveAuthor;
      assert MessageKey in keys <==> preserveMessage;
      assert DataKey in keys <==> preserveData;
    }
  }

  /** Filtering twice is filtering once. */
  lemma FilterIdempotent(f: CacheContentFilter, c: Content)
    ensures f.FilterContent(f.FilterContent(c)) == f.FilterContent(c)
  {
  }

  /** A filtered post still answers to its original's anchor. */
  lemma FilterKeepsAnchorId(f: CacheContentFilter, c: Content)
    requires f.preserveKeys.Some? ==> IdKey in f.preserveKeys.value
    ensures f.FilterContent(c).id == c.id
  {
  }
}

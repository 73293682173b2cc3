/**
 * The font cache handed to the drawing library (`MyFontCache`): a map from
 * font name to parsed font, filled by `Store` and read by `Load`.
 */
module Fonts {
  import opened Wrappers

  /** A parsed TrueType font, known only by its identity. */
  datatype Font = Font(handle: nat)

  /** The error text `Load` returns for a name that was never stored. */
  function NotStored(name: string): string
  {
    "Font " + name + " is not stored in font cache."
  }

  class FontCache {
    var fonts: map<string, Font>

    /** An empty cache, as `MyFontCache{}`. */
    constructor ()
      ensures fonts == map[]
    {
      fonts := map[];
    }

    /** `Store`: file the font under its name, replacing an earlier entry of
        that name; a later `Load` of the name returns it and every other name
        loads as before. */
    method Store(name: string, font: Font)
      modifies this
      ensures fonts == old(fonts)[name := font]
      ensures Load(name) == Success(font)
      ensures forall other :: other != name ==> Load(other) == old(Load(other))
    {
      fonts := fonts[name := font];
    }

    /** `Load`: the stored font, or an error naming the missing font. */
    function Load(name: string): (r: Result<Font, string>)
      reads this
      ensures r.Success? <==> name in fonts
      ensures r.Success? ==> r.value == fonts[name]
      ensures r.Failure? ==> r.error == NotStored(name)
    {
      if name !in fonts then Failure(NotStored(name)) else Success(fonts[name])
    }
  }

  /** The start-up registration: every parsed font is stored under its name,
      in whatever order the name map is walked, so each name then loads its
      own font and no other name loads at all. */
  method RegisterFonts(parsed: map<string, Font>) returns (cache: FontCache)
    ensures fresh(cache)
    ensures cache.fonts == parsed
    ensures forall name :: name in parsed ==> cache.Load(name) == Success(parsed[name])
    ensures forall name :: name !in parsed ==> cache.Load(name) == Failure(NotStored(name))
  {
    cache := new FontCache();
    var todo := parsed.Keys;
    while todo != {}
      invariant todo <= parsed.Keys
      invariant cache.fonts == map n | n in parsed && n !in todo :: parsed[n]
      decreases todo
    {
      var name :| name in todo;
      cache.Store(name, parsed[name]);
      todo := todo - {name};
    }
  }
}

/** `getCookie(name)`: look a cookie up in the `document.cookie` header text.
    The header is prefixed with "; ", split on "; " + name + "=", and accepted
    only when that yields exactly two parts; the value is the second part up
    to its first ';', then URI-decoded. */
module Cookie {
  import opened Js

  /** The cookie that carries the session identifier. */
  const CookieName: string := "__uzmaj3"

  /** The text that is searched: the header behind a leading "; ". */
  function Haystack(header: string): string { "; " + header }

  /** The text that is searched for. */
  function Needle(name: string): string { "; " + name + "=" }

  /** The value `getCookie` extracts before decoding, or `None` for `null`. */
  function RawValue(header: string, name: string): (r: Option<string>)
    ensures r.Some? ==> ';' !in r.value
    ensures Free(Haystack(header), Needle(name)) ==> r.None?
  {
    var parts := Split(Haystack(header), Needle(name));
    SplitFirst(Haystack(header), Needle(name));
    if |parts| == 2 then
      SplitCharFirst(parts[1], ';');
      Some(Split(parts[1], ";")[0])
    else None
  }

  /** Where the leftmost "; name=" is at `i`, the lookup succeeds exactly
      when no other "; name=" starts after it, and the value is then the text
      right after that "name=" up to the first following ';'. */
  lemma RawValueAt(header: string, name: string, i: int)
    requires Leftmost(Haystack(header), Needle(name), i)
    ensures var rest := Haystack(header)[i + |Needle(name)|..];
      && (RawValue(header, name).Some? <==> Free(rest, Needle(name)))
      && (RawValue(header, name).Some? ==> FirstField(RawValue(header, name).value, rest, ';'))
  {
    var rest := Haystack(header)[i + |Needle(name)|..];
    SplitTwo(Haystack(header), Needle(name), i);
    if RawValue(header, name).Some? {
      SplitCharFirst(rest, ';');
    }
  }

  /** `w` starts at exactly one index of `s`. */
  ghost predicate OccursOnce(s: string, w: string)
  {
    exists i :: Occurs(s, w, i) && forall j :: Occurs(s, w, j) ==> j == i
  }

  /** A name that appears exactly once is found. */
  lemma FoundWhenOnce(header: string, name: string)
    requires OccursOnce(Haystack(header), Needle(name))
    ensures RawValue(header, name).Some?
  {
    var hay, needle := Haystack(header), Needle(name);
    var i :| Occurs(hay, needle, i) && forall j :: Occurs(hay, needle, j) ==> j == i;
    var rest := hay[i + |needle|..];
    forall k | Occurs(rest, needle, k)
      ensures false
    {
      OccursInSuffix(hay, needle, i + |needle|, k);
    }
    RawValueAt(header, name, i);
  }

  /** Two non-overlapping appearances of the name make the lookup fail. */
  lemma MissingWhenTwice(header: string, name: string, i: int, j: int)
    requires Occurs(Haystack(header), Needle(name), i)
    requires Occurs(Haystack(header), Needle(name), j)
    requires i + |Needle(name)| <= j
    ensures RawValue(header, name).None?
  {
    var hay, needle := Haystack(header), Needle(name);
    var first := IndexOf(hay, needle).value;
    var start := first + |needle|;
    OccursInSuffix(hay, needle, start, j - start);
    RawValueAt(header, name, first);
  }

  /** Every occurrence of "; name=" starts with ';'. */
  lemma NeedleStart(s: string, name: string, j: int)
    requires Occurs(s, Needle(name), j)
    ensures s[j] == ';'
  {
  }

  /** Inside an occurrence of "; name=" there is no ';' when `name` holds
      none. */
  lemma NeedleInterior(s: string, name: string, i: int, k: int)
    requires ';' !in name
    requires Occurs(s, Needle(name), i)
    requires i < k < i + |Needle(name)|
    ensures s[k] != ';'
  {
  }

  /** Hence two occurrences of "; name=" can never overlap. */
  lemma NoSelfOverlap(s: string, name: string, i: int, j: int)
    requires ';' !in name
    requires Occurs(s, Needle(name), i) && Occurs(s, Needle(name), j)
    requires i <= j < i + |Needle(name)|
    ensures i == j
  {
    if i < j {
      NeedleStart(s, name, j);
      NeedleInterior(s, name, i, j);
    }
  }

  /** For a name without ';' (such as `CookieName`) the needle cannot overlap
      itself, so the lookup succeeds exactly when "; name=" appears once:
      an absent and a duplicated cookie both give `null`. */
  lemma {:induction false} FoundIffOnce(header: string, name: string)
    requires ';' !in name
    ensures RawValue(header, name).Some? <==> OccursOnce(Haystack(header), Needle(name))
  {
    var hay, needle := Haystack(header), Needle(name);
    if RawValue(header, name).Some? {
      var i := IndexOf(hay, needle).value;
      RawValueAt(header, name, i);
      var rest := hay[i + |needle|..];
      forall j | Occurs(hay, needle, j)
        ensures j == i
      {
        if j >= i + |needle| {
          OccursInSuffix(hay, needle, i + |needle|, j - (i + |needle|));
          assert false;
        } else {
          NoSelfOverlap(hay, name, i, j);
        }
      }
    } else if OccursOnce(hay, needle) {
      FoundWhenOnce(header, name);
    }
  }

  /** The outcome of `getCookie`: `null`, a thrown `URIError` from
      `decodeURIComponent`, or the decoded value. */
  datatype Lookup = Missing | Malformed | Found(value: string)

  /** `getCookie(name)` on the header text `header`; `decode` stands for
      `decodeURIComponent`, with `None` for a malformed escape. For a name
      without ';' the cookie is missing exactly when "; name=" does not occur
      exactly once; otherwise the result comes from decoding the text after
      the leftmost "name=" up to the next ';'. */
  function GetCookie(header: string, name: string, decode: string -> Option<string>): (r: Lookup)
    ensures ';' !in name ==> (r.Missing? <==> !OccursOnce(Haystack(header), Needle(name)))
    ensures !r.Missing? ==> exists i, raw ::
      && Leftmost(Haystack(header), Needle(name), i)
      && Free(Haystack(header)[i + |Needle(name)|..], Needle(name))
      && FirstField(raw, Haystack(header)[i + |Needle(name)|..], ';')
      && (r.Found? ==> decode(raw) == Some(r.value))
      && (r.Malformed? ==> decode(raw).None?)
  {
    assert ';' !in name ==> (RawValue(header, name).Some? <==> OccursOnce(Haystack(header), Needle(name))) by {
      if ';' !in name {
        FoundIffOnce(header, name);
      }
    }
    match RawValue(header, name)
    case None => Missing
    case Some(raw) =>
      var hay, needle := Haystack(header), Needle(name);
      var i := IndexOf(hay, needle).value;
      RawValueAt(header, name, i);
      assert Leftmost(hay, needle, i) && FirstField(raw, hay[i + |needle|..], ';');
      match decode(raw)
      case None => Malformed
      case Some(v) => Found(v)
  }
}

/** The option DTOs handed to select, multiselect and autocomplete widgets.
    Each holds two nullable strings; `equals` and `hashCode` look at one of them only
    (`text` for SelectOption, `id` for the other two). */
module Options {
  import opened Wrappers
  import opened Text

  /** `mine.equals(theirs)` for nullable strings: a null receiver raises NullPointerException,
      a null argument is unequal. */
  function StringEquals(mine: Option<string>, theirs: Option<string>): (r: Result<bool>)
    ensures r.Err? <==> mine.None?
    ensures r.Err? ==> r.error == NullPointer
    ensures r.Ok? ==> (r.value <==> theirs == mine)
  {
    match mine
    case None => Err(NullPointer)
    case Some(s) => Ok(theirs == Some(s))
  }

  /** `s.hashCode()` for a nullable string: null raises NullPointerException. */
  function NullableHash(s: Option<string>): (r: Result<Int32>)
    ensures r.Err? <==> s.None?
    ensures r.Err? ==> r.error == NullPointer
  {
    match s
    case None => Err(NullPointer)
    case Some(v) => Ok(StringHash(v))
  }

  /** Strings equal under `equals` have equal hash codes. */
  lemma StringEqualsHash(mine: Option<string>, theirs: Option<string>)
    requires StringEquals(mine, theirs) == Ok(true)
    ensures NullableHash(mine) == NullableHash(theirs) && NullableHash(mine).Ok?
  {
  }

  class SelectOption {
    var text: Option<string>
    var value: Option<string>

    /** The no-argument constructor used by JSON mapping: both fields null. */
    constructor Empty()
      ensures text.None? && value.None?
    {
      text := None;
      value := None;
    }

    /** Note the argument order: value first, then text. */
    constructor (value: Option<string>, text: Option<string>)
      ensures this.text == text && this.value == value
    {
      this.text := text;
      this.value := value;
    }

    method SetText(text: Option<string>)
      modifies this
      ensures this.text == text && value == old(value)
    {
      this.text := text;
    }

    method SetValue(value: Option<string>)
      modifies this
      ensures this.value == value && text == old(text)
    {
      this.value := value;
    }

    /** equals: true for the same reference, false for null or another class,
        otherwise `text.equals(that.text)`; `value` plays no part. */
    function Equals(o: object?): (r: Result<bool>)
      reads this, o
      ensures o == this ==> r == Ok(true)
      ensures o != this && !(o is SelectOption) ==> r == Ok(false)
      ensures o != this && o is SelectOption ==>
        && (r.Err? <==> text.None?)
        && (r.Ok? ==> (r.value <==> text == (o as SelectOption).text))
    {
      if o == this then Ok(true)
      else if !(o is SelectOption) then Ok(false)
      else StringEquals(text, (o as SelectOption).text)
    }

    /** hashCode: the hash of `text`. */
    function HashCode(): (r: Result<Int32>)
      reads this
      ensures r.Err? <==> text.None?
      ensures r.Ok? ==> r.value == StringHash(text.value)
    {
      NullableHash(text)
    }
  }

  /** Options equal under `equals` have the same hash code. */
  lemma SelectOptionHashConsistent(a: SelectOption, b: SelectOption)
    requires a.Equals(b) == Ok(true)
    ensures a.HashCode() == b.HashCode()
  {
    if a != b {
      StringEqualsHash(a.text, b.text);
    }
  }

  /** `equals` between two options is symmetric when it succeeds both ways. */
  lemma SelectOptionEqualsSymmetric(a: SelectOption, b: SelectOption)
    requires a.Equals(b) == Ok(true)
    ensures b.Equals(a) == Ok(true)
  {
  }

  class MultiselectOption {
    var id: Option<string>
    var value: Option<string>

    constructor Empty()
      ensures id.None? && value.None?
    {
      id := None;
      value := None;
    }

    constructor (id: Option<string>, value: Option<string>)
      ensures this.id == id && this.value == value
    {
      this.id := id;
      this.value := value;
    }

    method SetId(id: Option<string>)
      modifies this
      ensures this.id == id && value == old(value)
    {
      this.id := id;
    }

    method SetValue(value: Option<string>)
      modifies this
      ensures this.value == value && id == old(id)
    {
      this.value := value;
    }

    /** equals: true for the same reference, false for null or another class,
        otherwise `id.equals(that.id)`; `value` plays no part. */
    function Equals(o: object?): (r: Result<bool>)
      reads this, o
      ensures o == this ==> r == Ok(true)
      ensures o != this && !(o is MultiselectOption) ==> r == Ok(false)
      ensures o != this && o is MultiselectOption ==>
        && (r.Err? <==> id.None?)
        && (r.Ok? ==> (r.value <==> id == (o as MultiselectOption).id))
    {
      if o == this then Ok(true)
      else if !(o is MultiselectOption) then Ok(false)
      else StringEquals(id, (o as MultiselectOption).id)
    }

    /** hashCode: the hash of `id`. */
    function HashCode(): (r: Result<Int32>)
      reads this
      ensures r.Err? <==> id.None?
      ensures r.Ok? ==> r.value == StringHash(id.value)
    {
      NullableHash(id)
    }
  }

  lemma MultiselectOptionHashConsistent(a: MultiselectOption, b: MultiselectOption)
    requires a.Equals(b) == Ok(true)
    ensures a.HashCode() == b.HashCode()
  {
    if a != b {
      StringEqualsHash(a.id, b.id);
    }
  }

  class AutocompleteOption {
    var id: Option<string>
    var name: Option<string>

    constructor Empty()
      ensures id.None? && name.None?
    {
      id := None;
      name := None;
    }

    constructor (id: Option<string>, name: Option<string>)
      ensures this.id == id && this.name == name
    {
      this.id := id;
      this.name := name;
    }

    method SetId(id: Option<string>)
      modifies this
      ensures this.id == id && name == old(name)
    {
      this.id := id;
    }

    method SetName(name: Option<string>)
      modifies this
      ensures this.name == name && id == old(id)
    {
      this.name := name;
    }

    /** equals: true for the same reference, false for null or another class,
        otherwise `id.equals(that.id)`; `name` plays no part. */
    function Equals(o: object?): (r: Result<bool>)
      reads this, o
      ensures o == this ==> r == Ok(true)
      ensures o != this && !(o is AutocompleteOption) ==> r == Ok(false)
      ensures o != this && o is AutocompleteOption ==>
        && (r.Err? <==> id.None?)
        && (r.Ok? ==> (r.value <==> id == (o as AutocompleteOption).id))
    {
      if o == this then Ok(true)
      else if !(o is AutocompleteOption) then Ok(false)
      else StringEquals(id, (o as AutocompleteOption).id)
    }

    /** hashCode: the hash of `id`. */
    function HashCode(): (r: Result<Int32>)
      reads this
      ensures r.Err? <==> id.None?
      ensures r.Ok? ==> r.value == StringHash(id.value)
    {
      NullableHash(id)
    }
  }

  lemma AutocompleteOptionHashConsistent(a: AutocompleteOption, b: AutocompleteOption)
    requires a.Equals(b) == Ok(true)
    ensures a.HashCode() == b.HashCode()
  {
    if a != b {
      StringEqualsHash(a.id, b.id);
    }
  }
}

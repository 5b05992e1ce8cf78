/** The form record of the story-creation wizard: seven text fields and an
    optional photo. Every edit in the page copies the whole record and
    replaces exactly one key; this module states that as `Set` and proves
    the algebra of such copies. */
module Form {

  datatype Option<+T> = None | Some(value: T)

  /** The browser `File` the photo field would hold; only its name is ever read. */
  datatype Photo = Photo(name: string)

  /** The text-valued keys of the record. */
  datatype Key =
    | ChildName
    | ChildAge
    | ChildGender
    | Interests
    | Theme
    | Language
    | CharacterDescription

  /** The record the page keeps in state. Gender, theme and language are
      plain strings: the select widgets offer fixed values, but nothing
      checks what is stored. */
  datatype FormData = FormData(
    childName: string,
    childAge: string,
    childGender: string,
    interests: string,
    theme: string,
    language: string,
    characterDescription: string,
    image: Option<Photo>)
  {
    /** The value stored under key `k`. */
    function Get(k: Key): string
    {
      match k
      case ChildName => childName
      case ChildAge => childAge
      case ChildGender => childGender
      case Interests => interests
      case Theme => theme
      case Language => language
      case CharacterDescription => characterDescription
    }

    /** A copy of the record with key `k` replaced by `v` (`{ ...formData, k: v }`). */
    function Set(k: Key, v: string): (r: FormData)
      ensures r.Get(k) == v
      ensures forall j :: j != k ==> r.Get(j) == Get(j)
      ensures r.image == image
    {
      match k
      case ChildName => this.(childName := v)
      case ChildAge => this.(childAge := v)
      case ChildGender => this.(childGender := v)
      case Interests => this.(interests := v)
      case Theme => this.(theme := v)
      case Language => this.(language := v)
      case CharacterDescription => this.(characterDescription := v)
    }

    /** A copy of the record with the photo cleared (the "Remove" button). */
    function WithoutImage(): (r: FormData)
      ensures r.image == None
      ensures forall k :: r.Get(k) == Get(k)
    {
      this.(image := None)
    }

    /** The caption under the photo field: the file name when a photo is held. */
    function SelectedCaption(): (r: Option<string>)
      ensures r.Some? <==> image.Some?
      ensures image.Some? ==> r.value == image.value.name
    {
      match image
      case None => None
      case Some(p) => Some(p.name)
    }
  }

  /** The record the page starts with: every text empty except `language`,
      which defaults to English, and no photo. */
  const Empty: FormData := FormData("", "", "", "", "", "en", "", None)

  lemma EmptyDefaults()
    ensures forall k :: k != Language ==> Empty.Get(k) == ""
    ensures Empty.Get(Language) == "en"
    ensures Empty.image == None
  {
  }

  /** Two records that agree on every key and on the photo are equal. */
  lemma Extensionality(a: FormData, b: FormData)
    requires forall k :: a.Get(k) == b.Get(k)
    requires a.image == b.image
    ensures a == b
  {
    assert a.Get(ChildName) == b.Get(ChildName);
    assert a.Get(ChildAge) == b.Get(ChildAge);
    assert a.Get(ChildGender) == b.Get(ChildGender);
    assert a.Get(Interests) == b.Get(Interests);
    assert a.Get(Theme) == b.Get(Theme);
    assert a.Get(Language) == b.Get(Language);
    assert a.Get(CharacterDescription) == b.Get(CharacterDescription);
  }

  /** The contract of `Set` determines the copy completely: any record that
      holds `v` at `k`, agrees with `f` elsewhere and keeps its photo is
      `f.Set(k, v)`. */
  lemma SetDetermined(f: FormData, k: Key, v: string, r: FormData)
    requires r.Get(k) == v
    requires forall j :: j != k ==> r.Get(j) == f.Get(j)
    requires r.image == f.image
    ensures r == f.Set(k, v)
  {
    Extensionality(r, f.Set(k, v));
  }

  /** An edit leaves the record as it was exactly when it stores the value
      already there: it can change no key but its own. */
  lemma SetIsNoChangeIff(f: FormData, k: Key, v: string)
    ensures f.Set(k, v) == f <==> f.Get(k) == v
  {
  }

  /** Two records differ after an edit only at the edited key. */
  lemma SetDiffersOnlyAt(f: FormData, k: Key, v: string, j: Key)
    requires f.Set(k, v).Get(j) != f.Get(j)
    ensures j == k && v != f.Get(k)
  {
  }

  /** A second edit of the same key overwrites the first. */
  lemma SetOverwrites(f: FormData, k: Key, v: string, w: string)
    ensures f.Set(k, v).Set(k, w) == f.Set(k, w)
  {
  }

  /** Edits of different keys commute. */
  lemma SetCommutes(f: FormData, j: Key, a: string, k: Key, b: string)
    requires j != k
    ensures f.Set(j, a).Set(k, b) == f.Set(k, b).Set(j, a)
  {
  }

  /** Storing the value a key already holds changes nothing. */
  lemma SetSameValue(f: FormData, k: Key)
    ensures f.Set(k, f.Get(k)) == f
  {
  }

  /** Clearing the photo twice is clearing it once, and edits of text keys
      do not interact with it. */
  lemma WithoutImageCommutes(f: FormData, k: Key, v: string)
    ensures f.WithoutImage().WithoutImage() == f.WithoutImage()
    ensures f.Set(k, v).WithoutImage() == f.WithoutImage().Set(k, v)
  {
  }
}

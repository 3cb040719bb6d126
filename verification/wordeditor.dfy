/** The confirmed-word editor's list operations. Each returns a new list;
    the list passed in is a value and is never changed. */
module WordEditor {
  import opened Schema

  /** The editable fields of a confirmed word. */
  datatype Field = WordField | MeaningField | PosField

  function Get(w: ConfirmedWord, f: Field): string {
    match f
    case WordField => w.word
    case MeaningField => w.meaning
    case PosField => w.partOfSpeech
  }

  /** `{ ...w, [field]: value }`. */
  function SetField(w: ConfirmedWord, f: Field, value: string): (r: ConfirmedWord)
    ensures Get(r, f) == value
    ensures forall g :: g != f ==> Get(r, g) == Get(w, g)
  {
    match f
    case WordField => w.(word := value)
    case MeaningField => w.(meaning := value)
    case PosField => w.(partOfSpeech := value)
  }

  /** `updateWord`: the named field of the entry at `index` takes the new
      value; the length and every other entry stay as they were. */
  function UpdateWord(words: seq<ConfirmedWord>, index: nat, f: Field, value: string): (r: seq<ConfirmedWord>)
    requires index < |words|
    ensures |r| == |words|
    ensures Get(r[index], f) == value
    ensures forall g :: g != f ==> Get(r[index], g) == Get(words[index], g)
    ensures forall k :: 0 <= k < |words| && k != index ==> r[k] == words[k]
  {
    words[index := SetField(words[index], f, value)]
  }

  /** Writing back a field's own value changes nothing. */
  lemma UpdateWithSameValue(words: seq<ConfirmedWord>, index: nat, f: Field)
    requires index < |words|
    ensures UpdateWord(words, index, f, Get(words[index], f)) == words
  {
    var r := UpdateWord(words, index, f, Get(words[index], f));
    assert r[index] == words[index] by {
      match f
      case WordField =>
      case MeaningField =>
      case PosField =>
    }
  }

  /** `removeWord`: keeps every entry whose position is not `index`. */
  function RemoveWord(words: seq<ConfirmedWord>, index: int): (r: seq<ConfirmedWord>)
    ensures 0 <= index < |words| ==> r == words[..index] + words[index + 1..]
    ensures !(0 <= index < |words|) ==> r == words
    decreases |words|
  {
    if |words| == 0 then []
    else
      var rest := RemoveWord(words[1..], index - 1);
      assert index > 0 && index < |words| ==> words[1..][..index - 1] == words[1..index];
      assert [words[0]] + words[1..] == words;
      (if index == 0 then [] else [words[0]]) + rest
  }

  /** A new, empty entry. */
  const BlankWord := ConfirmedWord("", "", "noun")

  /** `addWord`: the old entries followed by a blank noun. */
  function AddWord(words: seq<ConfirmedWord>): (r: seq<ConfirmedWord>)
    ensures |r| == |words| + 1 && r[..|words|] == words && r[|words|] == BlankWord
  {
    words + [BlankWord]
  }

  /** Removing the entry just added restores the list. */
  lemma RemoveUndoesAdd(words: seq<ConfirmedWord>)
    ensures RemoveWord(AddWord(words), |words|) == words
  {
    assert AddWord(words)[|words| + 1..] == [];
  }

  /** Removal shortens the list by one exactly for an index in range. */
  lemma RemoveLength(words: seq<ConfirmedWord>, index: int)
    ensures |RemoveWord(words, index)| == if 0 <= index < |words| then |words| - 1 else |words|
  {
  }
}

/** The voice selector agent after the language model has answered: the
    table of ElevenLabs voices keyed by lower-cased name, the voice name
    read out of the model's reply, and the lookup with its fallback to the
    first voice. The voice list fetched at startup and the model's reply
    are inputs. */
module VoiceSelector {
  import opened Common
  import opened PyText

  /** One voice as the ElevenLabs listing gives it (only the fields the
      agent reads). */
  datatype Voice = Voice(name: string, voiceId: string)

  /** A Python dict from lower-cased names to voices: its keys in insertion
      order, and the entries. */
  datatype VoiceTable = VoiceTable(keys: seq<string>, entries: map<string, Voice>)

  predicate Valid(t: VoiceTable)
  {
    && (forall i, j :: 0 <= i < j < |t.keys| ==> t.keys[i] != t.keys[j])
    && (forall k :: k in t.entries ==> k in t.keys)
    && (forall i :: 0 <= i < |t.keys| ==> t.keys[i] in t.entries)
  }

  const EmptyTable: VoiceTable := VoiceTable([], map[])

  /** `d[k] = v`: a new key goes last, an existing key keeps its place and
      takes the new value. */
  function Insert(t: VoiceTable, k: string, v: Voice): (r: VoiceTable)
    requires Valid(t)
    ensures Valid(r)
    ensures r.entries == t.entries[k := v]
    ensures k in t.entries ==> r.keys == t.keys
    ensures k !in t.entries ==> r.keys == t.keys + [k]
  {
    if k in t.entries then VoiceTable(t.keys, t.entries[k := v])
    else VoiceTable(t.keys + [k], t.entries[k := v])
  }

  /** `{v["name"].lower(): v for v in voices}`. */
  function BuildVoices(vs: seq<Voice>): (t: VoiceTable)
    ensures Valid(t)
    ensures |t.keys| <= |vs|
    ensures t.keys == [] <==> vs == []
  {
    if vs == [] then EmptyTable
    else
      var v := vs[|vs| - 1];
      Insert(BuildVoices(vs[..|vs| - 1]), Lower(v.name), v)
  }

  /** The first key is the first voice's lower-cased name: later voices
      either add keys after it or overwrite values in place. */
  lemma {:induction false} BuildVoicesFirstKey(vs: seq<Voice>)
    requires vs != []
    ensures BuildVoices(vs).keys[0] == Lower(vs[0].name)
    decreases |vs|
  {
    var init := vs[..|vs| - 1];
    if init != [] {
      BuildVoicesFirstKey(init);
      assert init[0] == vs[0];
    }
  }

  /** Every voice's lower-cased name is a key. */
  lemma {:induction false} BuildVoicesHasKey(vs: seq<Voice>, i: nat)
    requires i < |vs|
    ensures Lower(vs[i].name) in BuildVoices(vs).entries
    decreases |vs|
  {
    var init := vs[..|vs| - 1];
    if i < |vs| - 1 {
      assert init[i] == vs[i];
      BuildVoicesHasKey(init, i);
    }
  }

  /** Every key holds a fetched voice whose lower-cased name is that key. */
  lemma {:induction false} BuildVoicesEntry(vs: seq<Voice>, k: string)
    requires k in BuildVoices(vs).entries
    ensures BuildVoices(vs).entries[k] in vs
    ensures Lower(BuildVoices(vs).entries[k].name) == k
    decreases |vs|
  {
    var init := vs[..|vs| - 1];
    var v := vs[|vs| - 1];
    if k != Lower(v.name) {
      BuildVoicesEntry(init, k);
      var j :| 0 <= j < |init| && init[j] == BuildVoices(vs).entries[k];
      assert vs[j] == init[j];
    }
  }

  lemma BuildVoicesEntries(vs: seq<Voice>)
    ensures var t := BuildVoices(vs);
      && (forall i :: 0 <= i < |vs| ==> Lower(vs[i].name) in t.entries)
      && (forall k :: k in t.entries ==> t.entries[k] in vs && Lower(t.entries[k].name) == k)
  {
    forall i | 0 <= i < |vs| ensures Lower(vs[i].name) in BuildVoices(vs).entries {
      BuildVoicesHasKey(vs, i);
    }
    forall k | k in BuildVoices(vs).entries
      ensures BuildVoices(vs).entries[k] in vs && Lower(BuildVoices(vs).entries[k].name) == k
    {
      BuildVoicesEntry(vs, k);
    }
  }

  /** When several voices share a lower-cased name, the table holds the last
      of them. */
  lemma {:induction false} BuildVoicesLastWins(vs: seq<Voice>, i: nat)
    requires i < |vs|
    requires forall j :: i < j < |vs| ==> Lower(vs[j].name) != Lower(vs[i].name)
    ensures Lower(vs[i].name) in BuildVoices(vs).entries
    ensures BuildVoices(vs).entries[Lower(vs[i].name)] == vs[i]
    decreases |vs|
  {
    BuildVoicesHasKey(vs, i);
    var init := vs[..|vs| - 1];
    if i < |vs| - 1 {
      assert init[i] == vs[i];
      BuildVoicesLastWins(init, i);
    }
  }

  // ---------------------------------------------------------------------------
  // The model's reply
  // ---------------------------------------------------------------------------

  /** One item of a reply's content list: a plain string, or a dict of
      string fields such as `{"type": "text", "text": ...}`. */
  datatype ContentPart = TextPart(text: string) | DictPart(fields: map<string, string>)

  /** `result.content`: a string, or a list of parts. */
  datatype Content = StrContent(s: string) | ListContent(parts: seq<ContentPart>)

  /** The answer's `"text"` field, when the reply's first item is a dict
      that has one. */
  predicate HasTextField(c: Content)
  {
    c.ListContent? && |c.parts| > 0 && c.parts[0].DictPart? && "text" in c.parts[0].fields
  }

  /** The voice name read out of the reply: the stripped `"text"` of the
      first content item when it is a dict, otherwise the empty string (a
      string reply, an empty reply, a first item that is not a dict, or a
      dict without `"text"`). */
  function SelectedName(c: Content): (r: string)
    ensures HasTextField(c) ==> r == Strip(c.parts[0].fields["text"])
    ensures !HasTextField(c) ==> r == []
    ensures r == [] || (!IsSpace(r[0]) && !IsSpace(r[|r| - 1]))
  {
    if c.ListContent? && |c.parts| > 0 && c.parts[0].DictPart? then
      var text := if "text" in c.parts[0].fields then c.parts[0].fields["text"] else "";
      StripIsTrimmedSlice(text);
      Strip(text)
    else ""
  }

  // ---------------------------------------------------------------------------
  // Resolution
  // ---------------------------------------------------------------------------

  /** `VOICES[voice_key]` after the fallback: the entry under the selected
      name lower-cased, else the entry under the first key; an empty table
      raises IndexError at `list(VOICES.keys())[0]`. */
  function ResolveVoice(t: VoiceTable, selected: string): (r: Result<Voice, string>)
    requires Valid(t)
    ensures r.Failure? <==> t.keys == []
    ensures r.Failure? ==> r.error == IndexErrorMessage
    ensures Lower(selected) in t.entries ==> r == Success(t.entries[Lower(selected)])
    ensures Lower(selected) !in t.entries && t.keys != [] ==> r == Success(t.entries[t.keys[0]])
    ensures r.Success? ==> exists k :: k in t.entries && t.entries[k] == r.value
  {
    var key := Lower(selected);
    if key in t.entries then Success(t.entries[key])
    else
      match PyIndex(t.keys, 0)
      case Failure(e) => Failure(e)
      case Success(first) => Success(t.entries[first])
  }

  /** Lookup ignores case: a name and its lower-cased form pick the same voice. */
  lemma ResolveIgnoresCase(t: VoiceTable, selected: string)
    requires Valid(t)
    ensures ResolveVoice(t, selected) == ResolveVoice(t, Lower(selected))
  {
    LowerIdempotent(selected);
  }

  /** Against the fetched list: a name matching some voice up to case picks
      a voice of that name (the last such voice); any other name picks the
      last voice named like the first one; only an empty list fails. */
  lemma ResolveFetched(vs: seq<Voice>, selected: string)
    ensures var r := ResolveVoice(BuildVoices(vs), selected);
      && (r.Failure? <==> vs == [])
      && (r.Success? ==> r.value in vs)
      && (forall i :: 0 <= i < |vs| && Lower(vs[i].name) == Lower(selected) ==>
            r.Success? && Lower(r.value.name) == Lower(selected))
      && (vs != [] && (forall i :: 0 <= i < |vs| ==> Lower(vs[i].name) != Lower(selected)) ==>
            r.Success? && Lower(r.value.name) == Lower(vs[0].name))
  {
    var t := BuildVoices(vs);
    BuildVoicesEntries(vs);
    var r := ResolveVoice(t, selected);
    if r.Success? {
      var k :| k in t.entries && t.entries[k] == r.value;
    }
    if vs != [] && Lower(selected) !in t.entries {
      BuildVoicesFirstKey(vs);
      assert t.keys[0] in t.entries;
    }
  }

  /** The fallback when no voice matches: the last voice whose lower-cased
      name is the first voice's. */
  lemma FallbackIsFirstName(vs: seq<Voice>, selected: string, j: nat)
    requires j < |vs| && Lower(vs[j].name) == Lower(vs[0].name)
    requires forall m :: j < m < |vs| ==> Lower(vs[m].name) != Lower(vs[0].name)
    requires forall i :: 0 <= i < |vs| ==> Lower(vs[i].name) != Lower(selected)
    ensures ResolveVoice(BuildVoices(vs), selected) == Success(vs[j])
  {
    BuildVoicesEntries(vs);
    BuildVoicesFirstKey(vs);
    BuildVoicesLastWins(vs, j);
  }

  // ---------------------------------------------------------------------------
  // handle_voice_select
  // ---------------------------------------------------------------------------

  datatype VoiceSelectResponse = VoiceSelectResponse(voiceover: string, voiceId: string, voiceName: string)

  /** `handle_voice_select` given the voices fetched at startup and the
      model's reply: the reply sent back, or the message of the IndexError
      raised when no voice was fetched. */
  function HandleVoiceSelect(fetched: seq<Voice>, voiceover: string, content: Content): (r: Result<VoiceSelectResponse, string>)
    ensures r.Failure? <==> fetched == []
    ensures r.Failure? ==> r.error == IndexErrorMessage
    ensures r.Success? ==> r.value.voiceover == voiceover
    ensures r.Success? ==> Voice(r.value.voiceName, r.value.voiceId) in fetched
    ensures r.Success? ==> match ResolveVoice(BuildVoices(fetched), SelectedName(content))
      case Success(v) => r.value.voiceId == v.voiceId && r.value.voiceName == v.name
      case Failure(_) => false
  {
    ResolveFetched(fetched, SelectedName(content));
    match ResolveVoice(BuildVoices(fetched), SelectedName(content))
    case Failure(e) => Failure(e)
    case Success(v) => Success(VoiceSelectResponse(voiceover, v.voiceId, v.name))
  }
}

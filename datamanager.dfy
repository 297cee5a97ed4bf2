/**
 * The payload store of `services/data_manager.py`: JSON files under the
 * data directory, modelled as a map from relative file name to file text.
 * Loading never fails; a missing, blank or undecodable file reads as a
 * default whose shape depends on the name.
 */
module DataManager {
  import opened Wrappers
  import opened Text
  import opened Json

  /** `[] if "compose" in relfile else {}`: a list for the compose payloads, an object otherwise. */
  function DefaultFor(name: string): (r: Json)
    ensures r == JArr([]) <==> Contains(name, "compose")
    ensures r == JObj([]) <==> !Contains(name, "compose")
  {
    if Contains(name, "compose") then JArr([]) else JObj([])
  }

  /**
   * `load_payload(relfile)` against the file contents `files`: the file's
   * stripped text, decoded. The blank check in front of the decoder returns
   * what the decoder's failure would return anyway, so the result is the
   * decoded text whenever it decodes and the name's default otherwise.
   */
  function LoadPayload(files: map<string, string>, name: string): (r: Json)
    ensures WellFormed(r)
    ensures r == (if name in files && Decode(Strip(files[name])).Some?
                  then Decode(Strip(files[name])).value
                  else DefaultFor(name))
  {
    if name !in files then DefaultFor(name)
    else
      var content := Strip(files[name]);
      if content == [] then
        DefaultFor(name)
      else
        match Decode(content)
        case None => DefaultFor(name)
        case Some(data) => data
  }

  /** What `save_data(name, d)` puts in the file: the encoding of `d`, with nothing around it. */
  lemma EncodeTrimmed(d: Json)
    ensures Strip(Encode(d)) == Encode(d)
  {
    var e := Encode(d);
    assert !IsSpace(e[0]) && !IsSpace(e[|e| - 1]);
    StripTrimmed(e);
  }

  /** Loading what was just saved gives back the saved value. */
  lemma SaveThenLoad(files: map<string, string>, name: string, d: Json)
    requires WellFormed(d)
    ensures LoadPayload(files[name := Encode(d)], name) == d
  {
    EncodeTrimmed(d);
    DecodeEncode(d);
  }

  /** The data directory and the writes made to it. */
  class PayloadStore {
    /** File name to file text. */
    var files: map<string, string>
    /** The names written by `save_data`, in order. */
    ghost var writes: seq<string>

    constructor(initial: map<string, string>)
      ensures files == initial && writes == []
    {
      files := initial;
      writes := [];
    }

    /**
     * `load_payload(name)` on the store itself: the reading view of
     * `LoadPayload`, giving exactly its value for the current files and
     * changing nothing.
     */
    method Load(name: string) returns (v: Json)
      ensures v == LoadPayload(files, name)
      ensures WellFormed(v)
    {
      if name !in files {
        return DefaultFor(name);
      }
      var content := Strip(files[name]);
      if content == [] {
        return DefaultFor(name);
      }
      var data := Decode(content);
      if data.None? {
        return DefaultFor(name);
      }
      v := data.value;
    }

    /**
     * `save_data(name, d)`: overwrites the one file `name` with the encoding
     * of `d`, and every other file keeps its text; `SaveThenLoad` shows that
     * a later load of `name` gives `d` back.
     */
    method Save(name: string, d: Json)
      modifies this
      ensures files == old(files)[name := Encode(d)]
      ensures writes == old(writes) + [name]
    {
      files := files[name := Encode(d)];
      writes := writes + [name];
    }
  }
}

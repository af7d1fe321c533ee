/** The configuration record `{api_key, domain}` and the domain rule applied
    when it is loaded: every request is sent to an `https://` address. Reading
    and writing the JSON file is not modelled; the parsed record is the input. */
module Config {

  const HttpsScheme := "https://"

  datatype Settings = Settings(apiKey: string, domain: string)

  /** `https://` is prepended unless the domain already starts with it. */
  function NormalizeDomain(domain: string): (r: string)
    ensures HttpsScheme <= r
    ensures HttpsScheme <= domain ==> r == domain
    ensures !(HttpsScheme <= domain) ==> r == HttpsScheme + domain
  {
    if HttpsScheme <= domain then domain else HttpsScheme + domain
  }

  /** The record `load_config` hands back: the key untouched, the domain
      normalised. */
  function LoadConfig(stored: Settings): (c: Settings)
    ensures c.apiKey == stored.apiKey
    ensures HttpsScheme <= c.domain
    ensures c.domain[|HttpsScheme|..] == stored.domain || c.domain == stored.domain
  {
    stored.(domain := NormalizeDomain(stored.domain))
  }

  /** Normalising twice is normalising once: a loaded record loads unchanged. */
  lemma LoadConfigIdempotent(stored: Settings)
    ensures LoadConfig(LoadConfig(stored)) == LoadConfig(stored)
  {
  }

  /** Only the exact scheme counts: an `http://` domain still gets the prefix. */
  lemma PlainHttpGetsPrefix()
    ensures NormalizeDomain("http://canvas.example.edu") == "https://http://canvas.example.edu"
  {
    assert !(HttpsScheme <= "http://canvas.example.edu") by {
      assert "http://canvas.example.edu"[4] != HttpsScheme[4];
    }
  }
}

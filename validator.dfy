/** Start-up configuration of the validator binary (`src/bin/validator.rs`): defaulting the
    Arweave URL from the bundler's configuration, building the bundler's public key from
    its base64url modulus, and choosing where the bundler key comes from. Reading files
    and parsing URLs are inputs: `readJwk` reads and parses a key file, `parses` says
    whether a text is a URL. */
module Validator {

  import opened Wrappers
  import opened Text
  import Base64Url

  /** The command line options; socket addresses and URLs are kept as text. */
  datatype CliOpts = CliOpts(
    noCron: bool,
    noServer: bool,
    databaseUrl: string,
    listen: string,
    bundlerPublic: Option<string>,
    bundlerKey: Option<string>,
    bundlerUrl: string,
    validatorKey: string,
    arweaveUrl: Option<string>,
    contractGatewayUrl: string)

  /** The part of the bundler's published configuration the validator reads. */
  datatype BundlerConfig = BundlerConfig(gateway: string)

  /** An RSA key: its modulus, and whether it holds the private part. The public exponent
      is always AQAB and is left implicit. */
  datatype JsonWebKey = RsaKey(n: seq<byte>, isPrivate: bool)

  // ---------------------------------------------------------------------------
  // merge_configs

  /** The Arweave URL used when none is configured. */
  function GatewayUrl(bundlerConfig: BundlerConfig): string {
    "https://" + bundlerConfig.gateway
  }

  /** `merge_configs`: a configured Arweave URL is kept; otherwise the bundler's gateway
      over https is used, and a text that does not parse as a URL panics. Every other
      option is kept. */
  function MergeConfigs(config: CliOpts, bundlerConfig: BundlerConfig, parses: string -> bool): (r: Completion<CliOpts>)
    ensures r.Aborts? <==> config.arweaveUrl.None? && !parses(GatewayUrl(bundlerConfig))
    ensures r.Returns? ==> r.value.arweaveUrl.Some?
    ensures r.Returns? && config.arweaveUrl.Some? ==> r.value.arweaveUrl == config.arweaveUrl
    ensures r.Returns? && config.arweaveUrl.None? ==> r.value.arweaveUrl == Some(GatewayUrl(bundlerConfig))
    ensures r.Returns? ==> r.value.(arweaveUrl := config.arweaveUrl) == config
  {
    match config.arweaveUrl
    case Some(u) => Returns(config.(arweaveUrl := Some(u)))
    case None =>
      var urlString := GatewayUrl(bundlerConfig);
      if parses(urlString) then Returns(config.(arweaveUrl := Some(urlString))) else Aborts
  }

  /** Merging an already merged configuration again, with any bundler configuration,
      changes nothing. */
  lemma MergeConfigsIdempotent(config: CliOpts, bundlerConfig: BundlerConfig, other: BundlerConfig, parses: string -> bool)
    requires MergeConfigs(config, bundlerConfig, parses).Returns?
    ensures var merged := MergeConfigs(config, bundlerConfig, parses).value;
            MergeConfigs(merged, other, parses) == Returns(merged)
  {
  }

  // ---------------------------------------------------------------------------
  // The bundler's public key

  /** `public_only_jwk_from_rsa_n`: a public RSA key whose modulus is the base64url
      (no padding) decoding of `encodedN`, or the decoding error. */
  function PublicOnlyJwkFromRsaN(encodedN: string): (r: Result<JsonWebKey, Base64Url.DecodeError>)
    ensures r.Success? <==> Base64Url.Decode(Utf8(encodedN)).Success?
    ensures r.Failure? ==> r.error == Base64Url.Decode(Utf8(encodedN)).error
    ensures r.Success? ==> !r.value.isPrivate
  {
    match Base64Url.Decode(Utf8(encodedN))
    case Success(n) => Success(RsaKey(n, false))
    case Failure(e) => Failure(e)
  }

  /** The `n` member of the key in JSON: its modulus in base64url without padding. */
  function SerializedN(jwk: JsonWebKey): string {
    Base64Url.Encode(jwk.n)
  }

  /** Serialising a key built from `encodedN` gives back exactly `encodedN`. */
  lemma SerializedNRoundTrip(encodedN: string)
    requires PublicOnlyJwkFromRsaN(encodedN).Success?
    ensures SerializedN(PublicOnlyJwkFromRsaN(encodedN).value) == encodedN
  {
    Base64Url.EncodeDecode(encodedN, Base64Url.Decode(Utf8(encodedN)).value);
  }

  /** Conversely, the serialised modulus of any public key builds that key. */
  lemma PublicOnlyJwkOfSerialized(jwk: JsonWebKey)
    requires !jwk.isPrivate
    ensures PublicOnlyJwkFromRsaN(SerializedN(jwk)) == Success(jwk)
  {
    Base64Url.DecodeEncode(jwk.n);
  }

  // ---------------------------------------------------------------------------
  // The application context

  /** What the command line parser accepts: exactly one of `--bundler-public` and
      `--bundler-key`. */
  predicate ClapAccepts(config: CliOpts) {
    config.bundlerPublic.Some? != config.bundlerKey.Some?
  }

  /** The bundler key of `From<&CliOpts> for AppContext`: read from the key file when one
      is given, otherwise built from `bundler_public`. A missing option, an unreadable
      file or an undecodable modulus panics. */
  function BundlerJwk(config: CliOpts, readJwk: string -> Option<JsonWebKey>): (r: Completion<JsonWebKey>)
    ensures config.bundlerKey.Some? ==> (r.Returns? <==> readJwk(config.bundlerKey.value).Some?)
    ensures config.bundlerKey.None? ==>
              (r.Returns? <==> config.bundlerPublic.Some? && PublicOnlyJwkFromRsaN(config.bundlerPublic.value).Success?)
    ensures r.Returns? && config.bundlerKey.Some? ==> r.value == readJwk(config.bundlerKey.value).value
    ensures r.Returns? && config.bundlerKey.None? ==> r.value == PublicOnlyJwkFromRsaN(config.bundlerPublic.value).value
  {
    match config.bundlerKey
    case Some(path) =>
      (match readJwk(path) case Some(jwk) => Returns(jwk) case None => Aborts)
    case None =>
      match config.bundlerPublic
      case None => Aborts
      case Some(n) =>
        match PublicOnlyJwkFromRsaN(n)
        case Success(jwk) => Returns(jwk)
        case Failure(_) => Aborts
  }

  /** A key file takes precedence: with one given, `bundler_public` plays no part. */
  lemma KeyFileTakesPrecedence(config: CliOpts, readJwk: string -> Option<JsonWebKey>, other: Option<string>)
    requires config.bundlerKey.Some?
    ensures BundlerJwk(config, readJwk) == BundlerJwk(config.(bundlerPublic := other), readJwk)
  {
  }

  /** Without a key file, and with the options the parser accepts, the key is the public
      key whose serialised modulus is `bundler_public`, and it panics only on a modulus
      that is not base64url. */
  lemma BundlerJwkFromPublic(config: CliOpts, readJwk: string -> Option<JsonWebKey>)
    requires ClapAccepts(config) && config.bundlerKey.None?
    ensures BundlerJwk(config, readJwk).Aborts? <==> Base64Url.Decode(Utf8(config.bundlerPublic.value)).Failure?
    ensures BundlerJwk(config, readJwk).Returns? ==>
              && !BundlerJwk(config, readJwk).value.isPrivate
              && SerializedN(BundlerJwk(config, readJwk).value) == config.bundlerPublic.value
  {
    if PublicOnlyJwkFromRsaN(config.bundlerPublic.value).Success? {
      SerializedNRoundTrip(config.bundlerPublic.value);
    }
  }

  /** The parts of `AppContext` that come from the options. */
  datatype AppContext = AppContext(
    bundlerJwk: JsonWebKey,
    validatorJwk: JsonWebKey,
    listen: string,
    arweaveUrl: string,
    bundlerUrl: string,
    contractGatewayUrl: string)

  /** `From<&CliOpts> for AppContext`: the bundler key, then the validator key read from
      its file, then the Arweave URL, which panics (`unreachable!`) when absent. */
  function AppContextFrom(config: CliOpts, readJwk: string -> Option<JsonWebKey>): (r: Completion<AppContext>)
    ensures r.Returns? <==>
              && BundlerJwk(config, readJwk).Returns?
              && readJwk(config.validatorKey).Some?
              && config.arweaveUrl.Some?
    ensures r.Returns? ==> r.value.arweaveUrl == config.arweaveUrl.value && r.value.bundlerJwk == BundlerJwk(config, readJwk).value
    ensures r.Returns? ==> && r.value.validatorJwk == readJwk(config.validatorKey).value
                           && r.value.listen == config.listen
                           && r.value.bundlerUrl == config.bundlerUrl
                           && r.value.contractGatewayUrl == config.contractGatewayUrl
  {
    match BundlerJwk(config, readJwk)
    case Aborts => Aborts
    case Returns(bundlerJwk) =>
      match readJwk(config.validatorKey)
      case None => Aborts
      case Some(validatorJwk) =>
        match config.arweaveUrl
        case None => Aborts
        case Some(url) =>
          Returns(AppContext(bundlerJwk, validatorJwk, config.listen, url, config.bundlerUrl, config.contractGatewayUrl))
  }

  /** On a merged configuration the `unreachable!()` arm is indeed never reached: the
      context is built unless a key cannot be had, and its Arweave URL is the merged one. */
  lemma MergedContextHasArweaveUrl(config: CliOpts, bundlerConfig: BundlerConfig, parses: string -> bool,
                                   readJwk: string -> Option<JsonWebKey>)
    requires MergeConfigs(config, bundlerConfig, parses).Returns?
    ensures var merged := MergeConfigs(config, bundlerConfig, parses).value;
            && (AppContextFrom(merged, readJwk).Returns? <==> BundlerJwk(merged, readJwk).Returns? && readJwk(merged.validatorKey).Some?)
            && (AppContextFrom(merged, readJwk).Returns? ==>
                  AppContextFrom(merged, readJwk).value.arweaveUrl
                    == (if config.arweaveUrl.Some? then config.arweaveUrl.value else GatewayUrl(bundlerConfig)))
  {
  }
}

/** internal/service/translator/factory.go: which translator the service runs with. */
module TranslatorFactory {
  import opened GoText
  import GeminiService
  import OpenRouterService

  /** The configuration the factory reads: the translator settings shared by both variants
      and the two provider sections. */
  datatype FactoryConfig = FactoryConfig(
    targetLanguage: string,
    outputSuffix: string,
    openRouter: OpenRouterService.OpenRouterConfig,
    gemini: GeminiService.GeminiConfig)

  datatype Provider = OpenRouterProvider | GeminiProvider

  datatype FactoryError = NoTranslatorConfigured

  /** The provider choice: OpenRouter whenever it has a key, else Gemini when that has a key,
      else an error. */
  function ChooseProvider(cfg: FactoryConfig): (r: Result<Provider, FactoryError>)
    ensures r == Ok(OpenRouterProvider) <==> cfg.openRouter.apiKey != ""
    ensures r == Ok(GeminiProvider) <==> cfg.openRouter.apiKey == "" && cfg.gemini.apiKey != ""
    ensures r.Err? <==> cfg.openRouter.apiKey == "" && cfg.gemini.apiKey == ""
  {
    if cfg.openRouter.apiKey != "" then Ok(OpenRouterProvider)
    else if cfg.gemini.apiKey != "" then Ok(GeminiProvider)
    else Err(NoTranslatorConfigured)
  }

  /** Automatic model selection only changes what is logged, never the choice. */
  lemma AutoSelectDoesNotChoose(cfg: FactoryConfig, auto: bool)
    ensures ChooseProvider(cfg.(openRouter := cfg.openRouter.(autoSelectModel := auto))) == ChooseProvider(cfg)
  {
  }

  /** The translator the factory builds. */
  datatype Built =
    | BuiltOpenRouter(openRouter: OpenRouterService.OpenRouterTranslator)
    | BuiltGemini(gemini: GeminiService.GeminiTranslator)

  /** NewTranslator: builds the chosen variant with the target language and output suffix
      passed through unchanged. */
  method NewTranslator(cfg: FactoryConfig, env: map<string, string>) returns (r: Result<Built, FactoryError>)
    ensures ChooseProvider(cfg).Err? ==> r == Err(NoTranslatorConfigured)
    ensures ChooseProvider(cfg) == Ok(OpenRouterProvider) ==>
              r.Ok? && r.value.BuiltOpenRouter? && fresh(r.value.openRouter)
              && r.value.openRouter.targetLanguage == cfg.targetLanguage
              && r.value.openRouter.outputSuffix == cfg.outputSuffix
              && r.value.openRouter.apiKey == cfg.openRouter.apiKey
              && r.value.openRouter.model == cfg.openRouter.model
    ensures ChooseProvider(cfg) == Ok(GeminiProvider) ==>
              r == Ok(BuiltGemini(GeminiService.NewGeminiTranslator(cfg.gemini, env, cfg.targetLanguage, cfg.outputSuffix)))
  {
    if cfg.openRouter.apiKey != "" {
      var t := new OpenRouterService.OpenRouterTranslator(cfg.openRouter, env, cfg.targetLanguage, cfg.outputSuffix);
      return Ok(BuiltOpenRouter(t));
    }
    if cfg.gemini.apiKey != "" {
      return Ok(BuiltGemini(GeminiService.NewGeminiTranslator(cfg.gemini, env, cfg.targetLanguage, cfg.outputSuffix)));
    }
    return Err(NoTranslatorConfigured);
  }
}

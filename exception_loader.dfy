/**
 * ExceptionLoader.java: a loader that turns a failed load into its
 * default data and keeps the exception for the UI to pick up.
 * performLoad is a parameter: the data it returns or the Exception it throws.
 */
module ExceptionLoaders {
  import opened JavaLang

  class ExceptionLoader<D> {
    /** mDefaultData. */
    const defaultData: D
    /** mException. */
    var exception: Option<Exception>

    /** ExceptionLoader(context, defaultData). */
    constructor(defaultData: D)
      ensures this.defaultData == defaultData && exception == None
    {
      this.defaultData := defaultData;
      exception := None;
    }

    /**
     * loadInBackground: clear the stored exception, then return what
     * performLoad returns; when it throws, store the exception and return
     * the default data.
     */
    method LoadInBackground(performLoad: Result<D, Exception>) returns (d: D)
      modifies this
      ensures performLoad.Success? ==> d == performLoad.value && exception == None
      ensures performLoad.Failure? ==> d == defaultData && exception == Some(performLoad.error)
    {
      exception := None;
      if performLoad.Success? {
        return performLoad.value;
      }
      exception := Some(performLoad.error);
      return defaultData;
    }

    /** getException: the stored exception, without clearing it. */
    function GetException(): (e: Option<Exception>)
      reads this
      ensures e == exception
    {
      exception
    }

    /** clearException: return the stored exception and forget it. */
    method ClearException() returns (e: Option<Exception>)
      modifies this
      ensures e == old(exception) && exception == None
    {
      e := exception;
      exception := None;
    }
  }

  /** A failed load followed by two clears: the first returns the exception, the second null. */
  method LoadThenClearTwice<D>(loader: ExceptionLoader<D>, failure: Exception) returns (first: Option<Exception>, second: Option<Exception>)
    modifies loader
    ensures first == Some(failure) && second == None && loader.exception == None
  {
    var d := loader.LoadInBackground(Failure(failure));
    first := loader.ClearException();
    second := loader.ClearException();
  }
}

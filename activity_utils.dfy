/**
 * util/ActivityUtils.java: fragment arguments and activity intents carry
 * the same information, a URI and a bundle of extras; the arguments keep
 * the URI under the key "_uri".  A Bundle is a map from keys to values,
 * and an Intent is its data URI and its extras.  Intent.getExtras is null
 * exactly when no extra was ever put; putAll of a null bundle is skipped,
 * so the model lets an empty map stand for both.
 */
module ActivityUtil {
  import opened JavaLang
  import opened ScheduleContracts

  /** A bundle value: a Uri, another Parcelable, or a value that is not Parcelable at all. */
  datatype Value = UriValue(uri: Uri) | OtherParcelable(tag: int) | Plain(text: string)

  type Bundle = map<string, Value>

  datatype Intent = Intent(data: Option<Uri>, extras: Bundle)

  const URI_KEY: string := "_uri"

  /**
   * arguments.getParcelable(URI_KEY) followed by the cast to Uri: null
   * when the key is missing or holds a value that is not Parcelable, a
   * ClassCastException when it holds another Parcelable.
   */
  function UriArgument(arguments: Bundle): (r: Result<Option<Uri>, Exception>)
    ensures r.Failure? <==> URI_KEY in arguments && arguments[URI_KEY].OtherParcelable?
    ensures r.Failure? ==> r.error == ClassCast
    ensures r.Success? ==> (r.value.Some? <==> URI_KEY in arguments && arguments[URI_KEY].UriValue?)
    ensures r.Success? && r.value.Some? ==> arguments[URI_KEY] == UriValue(r.value.value)
  {
    if URI_KEY !in arguments then Success(None)
    else
      match arguments[URI_KEY]
      case UriValue(u) => Success(Some(u))
      case OtherParcelable(_) => Failure(ClassCast)
      case Plain(_) => Success(None)
  }

  /**
   * fragmentArgumentsToIntent: a null bundle gives an empty intent;
   * otherwise the data is the "_uri" argument and the extras are all the
   * arguments except "_uri" (putExtras, then removeExtra).
   */
  function FragmentArgumentsToIntent(arguments: Option<Bundle>): (r: Result<Intent, Exception>)
    ensures arguments.None? ==> r == Success(Intent(None, map[]))
    ensures arguments.Some? ==> (r.Failure? <==> UriArgument(arguments.value).Failure?)
    ensures r.Success? && arguments.Some? ==>
              r.value.data == UriArgument(arguments.value).value
              && (forall k :: k in r.value.extras <==> k in arguments.value && k != URI_KEY)
              && (forall k :: k in r.value.extras ==> r.value.extras[k] == arguments.value[k])
  {
    if arguments.None? then Success(Intent(None, map[]))
    else
      var data := UriArgument(arguments.value);
      if data.Failure? then Failure(data.error)
      else
        var extras := arguments.value;
        Success(Intent(data.value, extras - {URI_KEY}))
  }

  /**
   * intentToFragmentArguments: a null intent gives an empty bundle;
   * otherwise "_uri" holds the data when there is one, and then every
   * extra is copied over it.
   */
  function IntentToFragmentArguments(intent: Option<Intent>): (arguments: Bundle)
    ensures intent.None? ==> arguments == map[]
    ensures intent.Some? ==>
              (forall k :: k in arguments <==> k in intent.value.extras || (k == URI_KEY && intent.value.data.Some?))
              && (forall k :: k in intent.value.extras ==> arguments[k] == intent.value.extras[k])
              && (URI_KEY !in intent.value.extras && intent.value.data.Some? ==> arguments[URI_KEY] == UriValue(intent.value.data.value))
  {
    if intent.None? then map[]
    else
      var withData := if intent.value.data.Some? then map[URI_KEY := UriValue(intent.value.data.value)] else map[];
      withData + intent.value.extras
  }

  /** An extra literally named "_uri" hides the intent's data from the arguments. */
  lemma UriExtraOverwritesData(intent: Intent)
    requires URI_KEY in intent.extras
    ensures IntentToFragmentArguments(Some(intent))[URI_KEY] == intent.extras[URI_KEY]
  {
  }

  /** intent, then arguments, then intent again gives back the intent when its extras lack "_uri". */
  lemma IntentRoundTrip(intent: Intent)
    requires URI_KEY !in intent.extras
    ensures FragmentArgumentsToIntent(Some(IntentToFragmentArguments(Some(intent)))) == Success(intent)
  {
    var arguments := IntentToFragmentArguments(Some(intent));
    var back := FragmentArgumentsToIntent(Some(arguments));
    assert back.Success?;
    assert back.value.extras == intent.extras;
  }

  /** arguments, then intent, then arguments again gives back the bundle when "_uri" is absent or a Uri. */
  lemma ArgumentsRoundTrip(arguments: Bundle)
    requires URI_KEY !in arguments || arguments[URI_KEY].UriValue?
    ensures FragmentArgumentsToIntent(Some(arguments)).Success?
    ensures IntentToFragmentArguments(Some(FragmentArgumentsToIntent(Some(arguments)).value)) == arguments
  {
    var intent := FragmentArgumentsToIntent(Some(arguments)).value;
    var back := IntentToFragmentArguments(Some(intent));
    assert forall k :: k in back <==> k in arguments;
    assert forall k :: k in back ==> back[k] == arguments[k];
  }

  /** A "_uri" argument that is not Parcelable is dropped on the way through an intent. */
  lemma PlainUriArgumentDropped(arguments: Bundle)
    requires URI_KEY in arguments && arguments[URI_KEY].Plain?
    ensures FragmentArgumentsToIntent(Some(arguments)).Success?
    ensures IntentToFragmentArguments(Some(FragmentArgumentsToIntent(Some(arguments)).value)) == arguments - {URI_KEY}
  {
    var intent := FragmentArgumentsToIntent(Some(arguments)).value;
    var back := IntentToFragmentArguments(Some(intent));
    assert forall k :: k in back <==> k in arguments - {URI_KEY};
  }
}

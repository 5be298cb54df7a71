/**
 * The standalone Loop web client's router and conversation form: a router
 * that swaps the visible view in response to routes, backed by a conversation
 * record and a notification list, and the text clean-up used by the
 * unsupported-browser view.
 *
 * The environment is made of inputs: whether the browser meets the call SDK's
 * requirements is a boolean argument, a translated string is the opaque value
 * `Translated(key)`, and a route handler is called directly rather than through
 * the toolkit's URL matching. `navigate` is recorded in a log of targets,
 * `loadView` replaces the current view, `notify` appends to the list, and
 * `listenTo` records a subscription on the conversation.
 */
module Webapp {
  import opened Common

  /** The base Loop server URL. */
  const BaseServerUrl: string := "http://localhost:5000"

  // ---------------------------------------------------------------------------
  // stripQuotes
  // ---------------------------------------------------------------------------

  /**
   * Removes one leading and one trailing double quote, if present (the
   * translations carry quotes so that their end spaces survive).
   */
  function StripQuotes(text: string): (r: string)
    ensures |text| - 2 <= |r| <= |text|
  {
    var t := if |text| > 0 && text[0] == '"' then text[1..] else text;
    if |t| > 0 && t[|t| - 1] == '"' then t[..|t| - 1] else t
  }

  function Quote(s: string): string
  {
    "\"" + s + "\""
  }

  /** Stripping undoes quoting, whatever quotes the quoted text itself holds. */
  lemma StripQuotesUndoesQuote(s: string)
    ensures StripQuotes(Quote(s)) == s
  {
    var q := Quote(s);
    assert q[0] == '"';
    assert q[1..] == s + "\"";
    assert (s + "\"")[..|s|] == s;
  }

  /** A text with no quote at either end is returned as it is. */
  lemma StripQuotesKeepsUnquoted(s: string)
    requires s == [] || (s[0] != '"' && s[|s| - 1] != '"')
    ensures StripQuotes(s) == s
  {
  }

  /** Only a single leading quote is removed from a text that does not end in one ... */
  lemma StripQuotesLeadingOnly(s: string)
    requires s == [] || s[|s| - 1] != '"'
    ensures StripQuotes("\"" + s) == s
  {
    assert ("\"" + s)[1..] == s;
  }

  /** ... and only a single trailing quote from a text that does not start with one. */
  lemma StripQuotesTrailingOnly(s: string)
    requires s == [] || s[0] != '"'
    ensures StripQuotes(s + "\"") == s
  {
    assert (s + "\"")[..|s|] == s;
  }

  /** A lone quote and an empty pair of quotes both become the empty text. */
  lemma StripQuotesOfQuotesOnly()
    ensures StripQuotes("\"") == "" && StripQuotes("\"\"") == ""
  {
    StripQuotesUndoesQuote("");
  }

  /** The result is the text with nothing, its first, its last, or both end characters removed. */
  lemma StripQuotesDropsOnlyEnds(text: string)
    ensures var r := StripQuotes(text);
      r == text ||
      (|text| >= 1 && (r == text[1..] || r == text[..|text| - 1])) ||
      (|text| >= 2 && r == text[1..|text| - 1])
  {
    if |text| >= 2 && text[0] == '"' {
      assert text[1..][..|text| - 2] == text[1..|text| - 1];
    }
  }

  // ---------------------------------------------------------------------------
  // State
  // ---------------------------------------------------------------------------

  /** The result of the translation function `__(key)`. */
  datatype Text = Translated(key: string)

  datatype Notification = Notification(message: Text, level: string)

  /** The options the form passes to the conversation's `initiate`. */
  datatype InitiateOptions = InitiateOptions(baseServerUrl: string, outgoing: bool)

  datatype Listener = FormListener(form: ConversationFormView) | RouterListener(router: WebappRouter)

  /** A `listenTo` registration: `listener` handles `event` of the conversation. */
  datatype Subscription = Subscription(event: string, listener: Listener)

  /** The views the router can show. */
  datatype View =
    | HomeView
    | UnsupportedView
    | FormView(form: ConversationFormView)
    | CallView(model: Conversation)

  /** JavaScript's `"..." + value` for an attribute that may be unset. */
  function JsString(value: Option<string>): string
  {
    match value
    case Some(s) => s
    case None => "undefined"
  }

  /** JavaScript truthiness of an attribute that may be unset. */
  predicate Truthy(value: Option<string>)
  {
    value.Some? && value.value != ""
  }

  /**
   * The conversation record: its attributes, the `initiate` requests made
   * on it and the subscriptions registered on it.
   */
  class Conversation {
    var loopToken: Option<string>
    var token: Option<string>
    var sessionReady: bool
    var initiateRequests: seq<InitiateOptions>
    var subscriptions: seq<Subscription>

    constructor (loopToken: Option<string>, token: Option<string>, sessionReady: bool)
      ensures this.loopToken == loopToken && this.token == token && this.sessionReady == sessionReady
      ensures initiateRequests == [] && subscriptions == []
    {
      this.loopToken := loopToken;
      this.token := token;
      this.sessionReady := sessionReady;
      initiateRequests := [];
      subscriptions := [];
    }
  }

  /** The notification list: notifications in the order they were raised. */
  class NotificationList {
    var notifications: seq<Notification>

    constructor ()
      ensures notifications == []
    {
      notifications := [];
    }

    method Notify(n: Notification)
      modifies this
      ensures notifications == old(notifications) + [n]
    {
      notifications := notifications + [n];
    }
  }

  // ---------------------------------------------------------------------------
  // ConversationFormView
  // ---------------------------------------------------------------------------

  const MissingModel: string := "missing required model"
  const MissingNotifier: string := "missing required notifier"
  const MissingConversation: string := "missing required conversation"

  /** The conversation launcher form, attached to a conversation and a notifier. */
  class ConversationFormView {
    const model: Conversation
    const notifier: NotificationList
    var disabled: bool

    /** Stores both and subscribes to the conversation's `session:error`. */
    constructor (model: Conversation, notifier: NotificationList)
      modifies model
      ensures this.model == model && this.notifier == notifier && !disabled
      ensures model.subscriptions == old(model.subscriptions) + [Subscription("session:error", FormListener(this))]
      ensures model.loopToken == old(model.loopToken) && model.token == old(model.token)
      ensures model.sessionReady == old(model.sessionReady)
      ensures model.initiateRequests == old(model.initiateRequests)
    {
      this.model := model;
      this.notifier := notifier;
      disabled := false;
      new;
      model.subscriptions := model.subscriptions + [Subscription("session:error", FormListener(this))];
    }

    /**
     * `initialize` with its argument checks: the model is checked before the
     * notifier, and a failed check leaves no subscription behind.
     */
    static method Create(model: Conversation?, notifier: NotificationList?)
      returns (r: Result<ConversationFormView>)
      modifies model
      ensures model == null ==> r == Err(MissingModel)
      ensures model != null && notifier == null ==>
        r == Err(MissingNotifier) && model.subscriptions == old(model.subscriptions)
      ensures model != null && notifier != null ==>
        r.Ok? && fresh(r.value) && r.value.model == model && r.value.notifier == notifier &&
        !r.value.disabled &&
        model.subscriptions == old(model.subscriptions) + [Subscription("session:error", FormListener(r.value))]
      ensures model != null ==>
        model.loopToken == old(model.loopToken) && model.token == old(model.token) &&
        model.sessionReady == old(model.sessionReady) &&
        model.initiateRequests == old(model.initiateRequests)
    {
      if model == null {
        return Err(MissingModel);
      }
      if notifier == null {
        return Err(MissingNotifier);
      }
      var view := new ConversationFormView(model, notifier);
      r := Ok(view);
    }

    /** A session error raises exactly one error notification. */
    method OnSessionError()
      modifies notifier
      ensures notifier.notifications ==
        old(notifier.notifications) + [Notification(Translated("unable_retrieve_call_info"), "error")]
    {
      notifier.Notify(Notification(Translated("unable_retrieve_call_info"), "error"));
    }

    /** Submitting the form asks for an outgoing call on the base server, then disables the form. */
    method Initiate()
      modifies this, model
      ensures model.initiateRequests == old(model.initiateRequests) + [InitiateOptions(BaseServerUrl, true)]
      ensures disabled
      ensures model.loopToken == old(model.loopToken) && model.token == old(model.token)
      ensures model.sessionReady == old(model.sessionReady)
      ensures model.subscriptions == old(model.subscriptions)
    {
      model.initiateRequests := model.initiateRequests + [InitiateOptions(BaseServerUrl, true)];
      disabled := true;
    }
  }

  // ---------------------------------------------------------------------------
  // WebappRouter
  // ---------------------------------------------------------------------------

  /** The application router: the current view and the navigation targets so far. */
  class WebappRouter {
    const conversation: Conversation
    const notifier: NotificationList
    var currentView: View
    var navigations: seq<string>

    /** Stores both, subscribes to `session:ready` and `session:ended`, and shows the home view. */
    constructor (conversation: Conversation, notifier: NotificationList)
      modifies conversation
      ensures this.conversation == conversation && this.notifier == notifier
      ensures currentView == HomeView && navigations == []
      ensures conversation.subscriptions == old(conversation.subscriptions) +
        [Subscription("session:ready", RouterListener(this)), Subscription("session:ended", RouterListener(this))]
      ensures conversation.loopToken == old(conversation.loopToken)
      ensures conversation.token == old(conversation.token)
      ensures conversation.sessionReady == old(conversation.sessionReady)
      ensures conversation.initiateRequests == old(conversation.initiateRequests)
    {
      this.conversation := conversation;
      this.notifier := notifier;
      navigations := [];
      currentView := HomeView;
      new;
      conversation.subscriptions := conversation.subscriptions +
        [Subscription("session:ready", RouterListener(this)), Subscription("session:ended", RouterListener(this))];
    }

    /** `initialize` with its argument checks: the conversation first, then the notifier. */
    static method Create(conversation: Conversation?, notifier: NotificationList?)
      returns (r: Result<WebappRouter>)
      modifies conversation
      ensures conversation == null ==> r == Err(MissingConversation)
      ensures conversation != null && notifier == null ==>
        r == Err(MissingNotifier) && conversation.subscriptions == old(conversation.subscriptions)
      ensures conversation != null && notifier != null ==>
        r.Ok? && fresh(r.value) && r.value.conversation == conversation && r.value.notifier == notifier &&
        r.value.currentView == HomeView && r.value.navigations == [] &&
        conversation.subscriptions == old(conversation.subscriptions) +
          [Subscription("session:ready", RouterListener(r.value)),
           Subscription("session:ended", RouterListener(r.value))]
      ensures conversation != null ==>
        conversation.loopToken == old(conversation.loopToken) &&
        conversation.token == old(conversation.token) &&
        conversation.sessionReady == old(conversation.sessionReady) &&
        conversation.initiateRequests == old(conversation.initiateRequests)
    {
      if conversation == null {
        return Err(MissingConversation);
      }
      if notifier == null {
        return Err(MissingNotifier);
      }
      var router := new WebappRouter(conversation, notifier);
      r := Ok(router);
    }

    /** When the call session is ready, go to the ongoing call. */
    method OnSessionReady()
      modifies this
      ensures navigations == old(navigations) + ["call/ongoing"]
      ensures currentView == old(currentView)
    {
      navigations := navigations + ["call/ongoing"];
    }

    /** When the call session has ended, go back to the call's `token` page (not `loopToken`). */
    method OnSessionEnded()
      modifies this
      ensures navigations == old(navigations) + ["call/" + JsString(conversation.token)]
      ensures currentView == old(currentView)
    {
      navigations := navigations + ["call/" + JsString(conversation.token)];
    }

    /** The default route. */
    method HomeRoute()
      modifies this
      ensures currentView == HomeView && navigations == old(navigations)
    {
      currentView := HomeView;
    }

    method UnsupportedRoute()
      modifies this
      ensures currentView == UnsupportedView && navigations == old(navigations)
    {
      currentView := UnsupportedView;
    }

    /**
     * `call/:token`: on a supported browser, remember the token and show the
     * conversation form; otherwise go to the unsupported page and change nothing else.
     */
    method InitiateRoute(loopToken: string, requirementsMet: bool)
      modifies this, conversation
      ensures !requirementsMet ==>
        navigations == old(navigations) + ["unsupported"] && currentView == old(currentView) &&
        conversation.loopToken == old(conversation.loopToken) &&
        conversation.subscriptions == old(conversation.subscriptions)
      ensures requirementsMet ==>
        conversation.loopToken == Some(loopToken) && navigations == old(navigations) &&
        currentView.FormView? && fresh(currentView.form) &&
        currentView.form.model == conversation && currentView.form.notifier == notifier &&
        !currentView.form.disabled &&
        conversation.subscriptions ==
          old(conversation.subscriptions) + [Subscription("session:error", FormListener(currentView.form))]
      ensures conversation.token == old(conversation.token)
      ensures conversation.sessionReady == old(conversation.sessionReady)
      ensures conversation.initiateRequests == old(conversation.initiateRequests)
    {
      if !requirementsMet {
        navigations := navigations + ["unsupported"];
        return;
      }
      conversation.loopToken := Some(loopToken);
      var form := new ConversationFormView(conversation, notifier);
      currentView := FormView(form);
    }

    /**
     * `call/ongoing`, with four exclusive outcomes: unsupported browser; no
     * session yet but a token to go back to; no session and no token (one
     * error notification, then home); or the in-call view.
     */
    method ConversationRoute(requirementsMet: bool)
      modifies this, notifier
      ensures !requirementsMet ==>
        navigations == old(navigations) + ["unsupported"] && currentView == old(currentView) &&
        notifier.notifications == old(notifier.notifications)
      ensures requirementsMet && !conversation.sessionReady && Truthy(conversation.loopToken) ==>
        navigations == old(navigations) + ["call/" + conversation.loopToken.value] &&
        currentView == old(currentView) && notifier.notifications == old(notifier.notifications)
      ensures requirementsMet && !conversation.sessionReady && !Truthy(conversation.loopToken) ==>
        navigations == old(navigations) + ["home"] && currentView == old(currentView) &&
        notifier.notifications == old(notifier.notifications) +
          [Notification(Translated("Missing conversation information"), "error")]
      ensures requirementsMet && conversation.sessionReady ==>
        navigations == old(navigations) && currentView == CallView(conversation) &&
        notifier.notifications == old(notifier.notifications)
    {
      if !requirementsMet {
        navigations := navigations + ["unsupported"];
        return;
      }
      if !conversation.sessionReady {
        var loopToken := conversation.loopToken;
        if Truthy(loopToken) {
          navigations := navigations + ["call/" + loopToken.value];
          return;
        }
        notifier.Notify(Notification(Translated("Missing conversation information"), "error"));
        navigations := navigations + ["home"];
        return;
      }
      currentView := CallView(conversation);
    }
  }

  /**
   * Initiating a call with a token and then reaching `call/ongoing` before the
   * session is ready sends the browser back to that token's page.
   */
  method InitiateThenEarlyConversation(router: WebappRouter, loopToken: string)
    requires loopToken != "" && !router.conversation.sessionReady
    modifies router, router.conversation, router.notifier
    ensures router.navigations == old(router.navigations) + ["call/" + loopToken]
    ensures router.currentView.FormView? && router.currentView.form.model == router.conversation
  {
    router.InitiateRoute(loopToken, true);
    router.ConversationRoute(true);
  }
}
